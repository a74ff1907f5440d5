/**
 Loading a workflow onto the canvas (the `useEffect` loader of
 src/components/WorkflowCanvas.js:52-152): a backend document's node
 definitions become canvas nodes in entry order and its edges become canvas
 edges; a document in the editor's own format is read with defaults. No edge
 is checked against the connection rule on the way in.
 */
module Import {
  import opened Wrappers
  import opened JsValue
  import JsObject
  import opened Editor
  import opened Document

  /** The canvas type for a backend `nodeType`: `Trigger` and `Controller` map to their own type, anything else to an activity. */
  function EditorType(nodeType: Value): (kind: string)
    ensures kind == TriggerType <==> nodeType == Str("Trigger")
    ensures kind == ControllerType <==> nodeType == Str("Controller")
    ensures kind == ActivityType <==> nodeType != Str("Trigger") && nodeType != Str("Controller")
  {
    if nodeType == Str("Trigger") then TriggerType
    else if nodeType == Str("Controller") then ControllerType
    else if nodeType == Str("Activity") then ActivityType
    else ActivityType
  }

  /** The placeholder layout: one column per node type, each entry placed lower by its global entry index. */
  function LayoutPosition(kind: string, index: nat): Position {
    if kind == TriggerType then Position(50, 100 + index * 150)
    else if kind == ControllerType then Position(350, 150 + index * 100)
    else if kind == ActivityType then Position(650, 100 + index * 120)
    else Position(100, 100)
  }

  predicate IsKnownType(kind: string) {
    kind == TriggerType || kind == ControllerType || kind == ActivityType
  }

  /**
   The layout gives each known type its own column, moves strictly down the
   column as the entry index grows, and so never stacks two entries on one
   spot; the `(100, 100)` fallback is never used for a mapped type.
   */
  lemma LayoutSeparatesEntries(a: string, i: nat, b: string, j: nat)
    requires IsKnownType(a) && IsKnownType(b)
    ensures LayoutPosition(a, i).x == 50 <==> a == TriggerType
    ensures LayoutPosition(a, i).x == 350 <==> a == ControllerType
    ensures LayoutPosition(a, i).x == 650 <==> a == ActivityType
    ensures a == b && i < j ==> LayoutPosition(a, i).y < LayoutPosition(b, j).y
    ensures (a, i) != (b, j) ==> LayoutPosition(a, i) != LayoutPosition(b, j)
  {
  }

  /** The description the loader shows: `${activityName} (${nodeType})`. */
  function Description(entry: ApiNode): string {
    Text(entry.activityName) + " (" + Text(entry.nodeType) + ")"
  }

  /** One backend node definition, found at entry `index`, as a canvas node. */
  function ImportApiNode(entry: ApiNode, index: nat): Node {
    var kind := EditorType(entry.nodeType);
    Node(entry.nodeId, kind, LayoutPosition(kind, index),
      [("name", entry.nodeName),
       ("description", Str(Description(entry))),
       ("params", Or(entry.nodeParams, EmptyObject))])
  }

  /** The data object of an imported node: exactly `name`, `description` and `params`. */
  lemma ImportApiNodeData(entry: ApiNode, index: nat)
    ensures JsObject.Keys(ImportApiNode(entry, index).data) == {"name", "description", "params"}
    ensures Field(ImportApiNode(entry, index).data, "name") == entry.nodeName
    ensures Field(ImportApiNode(entry, index).data, "description") == Str(Description(entry))
    ensures Field(ImportApiNode(entry, index).data, "params") == Or(entry.nodeParams, EmptyObject)
    ensures Field(ImportApiNode(entry, index).data, "activityName") == Undefined
  {
    var data := ImportApiNode(entry, index).data;
    JsObject.GetEntry(data, 0);
    JsObject.GetEntry(data, 1);
    JsObject.GetEntry(data, 2);
  }

  /**
   The backend node definitions as canvas nodes: one node per entry, in entry
   order, whatever the entry keys are; a node's id is the entry's `nodeId`,
   and its type and position come from `nodeType` and the entry index alone
   (`ImportApiNodeData` states its data).
   */
  function ImportApiNodes(entries: JsObject.Object<ApiNode>): (nodes: seq<Node>)
    ensures |nodes| == |entries|
    ensures forall i :: 0 <= i < |entries| ==>
      && nodes[i] == ImportApiNode(entries[i].1, i)
      && nodes[i].id == entries[i].1.nodeId
      && nodes[i].kind == EditorType(entries[i].1.nodeType)
      && nodes[i].position == LayoutPosition(nodes[i].kind, i)
  {
    seq(|entries|, i requires 0 <= i < |entries| => ImportApiNode(entries[i].1, i))
  }

  /**
   A document's node map loads as one canvas node per key: node `i` is the
   definition that the `i`-th key reads.
   */
  lemma ImportOneNodePerKey(entries: NodeDefinitions)
    ensures |ImportApiNodes(entries)| == |JsObject.Keys(entries)|
    ensures forall i :: 0 <= i < |entries| ==>
      && JsObject.Get(entries, entries[i].0).Some?
      && ImportApiNodes(entries)[i] == ImportApiNode(JsObject.Get(entries, entries[i].0).value, i)
  {
    JsObject.DistinctKeysCard(entries);
    forall i | 0 <= i < |entries| ensures JsObject.Get(entries, entries[i].0) == Some(entries[i].1) {
      JsObject.GetEntry(entries, i);
    }
  }

  /** The id of the edge at `index`: its edge name, or `edge-<index>` when the name is missing or empty. */
  function EdgeId(edgeName: Option<string>, index: nat): string {
    OrString(edgeName, "edge-" + NatToString(index))
  }

  /**
   The backend edges as canvas edges: one per document edge, in order, with
   the same endpoints, labelled with the edge name. Edges into trigger nodes
   and edges to unknown ids are kept.
   */
  function ImportApiEdges(edges: seq<ApiEdge>): (r: seq<Edge>)
    ensures |r| == |edges|
    ensures forall i :: 0 <= i < |edges| ==>
      && r[i].source == edges[i].fromNodeId
      && r[i].target == edges[i].toNodeId
      && r[i].edgeLabel == edges[i].edgeName
      && (edges[i].edgeName.Some? && edges[i].edgeName.value != "" ==> r[i].id == edges[i].edgeName.value)
      && (edges[i].edgeName.None? || edges[i].edgeName.value == "" ==> r[i].id == "edge-" + NatToString(i))
  {
    seq(|edges|, i requires 0 <= i < |edges| =>
      Edge(EdgeId(edges[i].edgeName, i), edges[i].fromNodeId, edges[i].toNodeId, edges[i].edgeName))
  }

  /**
   A node of the editor's own format: a missing or empty id becomes
   `node-<index>`, a missing type `activity`, a missing position
   `(100 + 200 * index, 100)`, a falsy description `""` and falsy params `{}`.
   */
  function ImportDemoNode(n: DemoNode, index: nat): Node {
    Node(OrString(n.id, "node-" + NatToString(index)),
      OrString(n.kind, ActivityType),
      if n.position.Some? then n.position.value else Position(100 + index * 200, 100),
      [("name", n.name),
       ("description", Or(n.description, Str(""))),
       ("params", Or(n.params, EmptyObject))])
  }

  function ImportDemoNodes(nodes: seq<DemoNode>): (r: seq<Node>)
    ensures |r| == |nodes|
    ensures forall i :: 0 <= i < |nodes| ==> r[i] == ImportDemoNode(nodes[i], i)
  {
    seq(|nodes|, i requires 0 <= i < |nodes| => ImportDemoNode(nodes[i], i))
  }

  /** The editor-format edges, `[]` when the list is missing; a missing or empty id becomes `edge-<index>`. */
  function ImportDemoEdges(edges: Option<seq<DemoEdge>>): (r: seq<Edge>)
    ensures edges.None? ==> r == []
    ensures edges.Some? ==> |r| == |edges.value| && forall i :: 0 <= i < |edges.value| ==>
      r[i] == Edge(EdgeId(edges.value[i].id, i), edges.value[i].source, edges.value[i].target, None)
  {
    match edges
    case None => []
    case Some(es) =>
      seq(|es|, i requires 0 <= i < |es| => Edge(EdgeId(es[i].id, i), es[i].source, es[i].target, None))
  }

  /** The defaults of the editor format, read off one node. */
  lemma DemoNodeDefaults(n: DemoNode, index: nat)
    ensures n.id.None? || n.id == Some("") ==> ImportDemoNode(n, index).id == "node-" + NatToString(index)
    ensures n.id.Some? && n.id.value != "" ==> ImportDemoNode(n, index).id == n.id.value
    ensures n.kind.None? || n.kind == Some("") ==> ImportDemoNode(n, index).kind == ActivityType
    ensures n.kind.Some? && n.kind.value != "" ==> ImportDemoNode(n, index).kind == n.kind.value
    ensures n.position.None? ==> ImportDemoNode(n, index).position == Position(100 + 200 * index, 100)
    ensures n.position.Some? ==> ImportDemoNode(n, index).position == n.position.value
    ensures !Truthy(n.description) ==> Field(ImportDemoNode(n, index).data, "description") == Str("")
    ensures Truthy(n.description) ==> Field(ImportDemoNode(n, index).data, "description") == n.description
    ensures !Truthy(n.params) ==> Field(ImportDemoNode(n, index).data, "params") == EmptyObject
    ensures Truthy(n.params) ==> Field(ImportDemoNode(n, index).data, "params") == n.params
    ensures Field(ImportDemoNode(n, index).data, "name") == n.name
  {
    var data := ImportDemoNode(n, index).data;
    JsObject.GetEntry(data, 0);
    JsObject.GetEntry(data, 1);
    JsObject.GetEntry(data, 2);
  }

  /** Which of the two formats a workflow is read as. */
  predicate IsApiFormat(w: Workflow) {
    w.definition.Some? && w.definition.value.nodes.Some?
  }

  /**
   The loader. With no workflow the canvas is left alone; a workflow with
   `definition.nodes` is read as a backend document (its edges only when
   `definition.edges` is present); otherwise one with `nodes` is read in the
   editor's format; otherwise the canvas is emptied. The selection is kept.
   */
  function Load(workflow: Option<Workflow>, c: Canvas): (r: Canvas)
    ensures workflow.None? ==> r == c
    ensures r.selected == c.selected
    ensures workflow.Some? && IsApiFormat(workflow.value) ==>
      var d := workflow.value.definition.value;
      && r.nodes == ImportApiNodes(d.nodes.value)
      && r.edges == (if d.edges.Some? then ImportApiEdges(d.edges.value) else [])
    ensures workflow.Some? && !IsApiFormat(workflow.value) && workflow.value.nodes.Some? ==>
      && r.nodes == ImportDemoNodes(workflow.value.nodes.value)
      && r.edges == ImportDemoEdges(workflow.value.edges)
    ensures workflow.Some? && !IsApiFormat(workflow.value) && workflow.value.nodes.None? ==>
      r.nodes == [] && r.edges == []
  {
    match workflow
    case None => c
    case Some(w) =>
      if IsApiFormat(w) then
        var d := w.definition.value;
        c.(nodes := ImportApiNodes(d.nodes.value),
           edges := if d.edges.Some? then ImportApiEdges(d.edges.value) else [])
      else if w.nodes.Some? then
        c.(nodes := ImportDemoNodes(w.nodes.value), edges := ImportDemoEdges(w.edges))
      else
        c.(nodes := [], edges := [])
  }

  /**
   The keys of the node map are never read: node maps whose `Object.entries`
   sequences carry the same definitions in the same order load alike.
   */
  lemma LoadIgnoresNodeKeys(a: NodeDefinitions, b: NodeDefinitions, edges: Option<seq<ApiEdge>>, wid: Value, c: Canvas)
    requires |a| == |b|
    requires forall i :: 0 <= i < |a| ==> a[i].1 == b[i].1
    ensures Load(Some(Workflow(wid, Some(Definition(Some(a), edges)), None, None)), c)
         == Load(Some(Workflow(wid, Some(Definition(Some(b), edges)), None, None)), c)
  {
    assert ImportApiNodes(a) == ImportApiNodes(b);
  }

  /** Imported node ids are unique exactly when the document's `nodeId`s are. */
  lemma ImportUniqueIds(entries: JsObject.Object<ApiNode>)
    ensures UniqueIds(ImportApiNodes(entries)) <==>
      forall i, j :: 0 <= i < j < |entries| ==> entries[i].1.nodeId != entries[j].1.nodeId
  {
    var nodes := ImportApiNodes(entries);
    assert forall i :: 0 <= i < |entries| ==> NodeIds(nodes)[i] == entries[i].1.nodeId;
  }

  /** The document has a node definition with this `nodeId`. */
  predicate DocumentHasNode(entries: JsObject.Object<ApiNode>, id: string) {
    exists i :: 0 <= i < |entries| && entries[i].1.nodeId == id
  }

  /** The document has a `Trigger` node definition with this `nodeId`. */
  predicate DocumentHasTrigger(entries: JsObject.Object<ApiNode>, id: string) {
    exists i :: 0 <= i < |entries| && entries[i].1.nodeId == id && entries[i].1.nodeType == Str("Trigger")
  }

  /** The loaded canvas holds a node with an id exactly when the document does, and a trigger exactly when the document has a `Trigger` with it. */
  lemma ImportNodeLookup(entries: JsObject.Object<ApiNode>, id: string)
    ensures HasNode(ImportApiNodes(entries), id) <==> DocumentHasNode(entries, id)
    ensures IsTriggerId(ImportApiNodes(entries), id) <==> DocumentHasTrigger(entries, id)
  {
    var nodes := ImportApiNodes(entries);
    if DocumentHasNode(entries, id) {
      var i :| 0 <= i < |entries| && entries[i].1.nodeId == id;
      assert nodes[i].id == id;
    }
    if DocumentHasTrigger(entries, id) {
      var i :| 0 <= i < |entries| && entries[i].1.nodeId == id && entries[i].1.nodeType == Str("Trigger");
      assert nodes[i].id == id && nodes[i].kind == TriggerType;
    }
  }

  /** Every loaded edge joins loaded nodes exactly when every document edge names node ids of the document. */
  lemma ImportEdgesClosed(entries: JsObject.Object<ApiNode>, edges: seq<ApiEdge>)
    ensures EdgesClosed(ImportApiNodes(entries), ImportApiEdges(edges)) <==>
      forall k :: 0 <= k < |edges| ==>
        DocumentHasNode(entries, edges[k].fromNodeId) && DocumentHasNode(entries, edges[k].toNodeId)
  {
    var nodes := ImportApiNodes(entries);
    var es := ImportApiEdges(edges);
    forall k | 0 <= k < |edges|
      ensures HasNode(nodes, es[k].source) <==> DocumentHasNode(entries, edges[k].fromNodeId)
      ensures HasNode(nodes, es[k].target) <==> DocumentHasNode(entries, edges[k].toNodeId)
    {
      ImportNodeLookup(entries, edges[k].fromNodeId);
      ImportNodeLookup(entries, edges[k].toNodeId);
    }
    assert forall e :: e in es ==> exists k :: 0 <= k < |edges| && es[k] == e;
    assert forall k :: 0 <= k < |edges| ==> es[k] in es;
  }

  /** No loaded edge enters a trigger exactly when no document edge targets a `Trigger` node id. */
  lemma ImportNoEdgeIntoTrigger(entries: JsObject.Object<ApiNode>, edges: seq<ApiEdge>)
    ensures NoEdgeIntoTrigger(ImportApiNodes(entries), ImportApiEdges(edges)) <==>
      forall k :: 0 <= k < |edges| ==> !DocumentHasTrigger(entries, edges[k].toNodeId)
  {
    var nodes := ImportApiNodes(entries);
    var es := ImportApiEdges(edges);
    forall k | 0 <= k < |edges|
      ensures IsTriggerId(nodes, es[k].target) <==> DocumentHasTrigger(entries, edges[k].toNodeId)
    {
      ImportNodeLookup(entries, edges[k].toNodeId);
    }
    assert forall e :: e in es ==> exists k :: 0 <= k < |edges| && es[k] == e;
    assert forall k :: 0 <= k < |edges| ==> es[k] in es;
  }

  /**
   No connection check on import: a document whose only edge runs from an
   activity into a trigger loads that edge, and the canvas then breaks the
   rule that interactive connecting enforces.
   */
  lemma ImportKeepsEdgeIntoTrigger()
    ensures var entries := [
        ("t", ApiNode(Str("T"), "t", Undefined, Undefined, Str("Trigger"), Undefined, Undefined)),
        ("a", ApiNode(Str("A"), "a", Undefined, Undefined, Str("Activity"), Undefined, Undefined))];
      var edges := [ApiEdge("a", "t", Some("e"))];
      var c := Load(Some(Workflow(Undefined, Some(Definition(Some(entries), Some(edges))), None, None)), Canvas([], [], []));
      && |c.edges| == 1
      && !NoEdgeIntoTrigger(c.nodes, c.edges)
      && !IsValidConnection(c.nodes, Connection("a", "t"))
  {
    var entries := [
        ("t", ApiNode(Str("T"), "t", Undefined, Undefined, Str("Trigger"), Undefined, Undefined)),
        ("a", ApiNode(Str("A"), "a", Undefined, Undefined, Str("Activity"), Undefined, Undefined))];
    var edges := [ApiEdge("a", "t", Some("e"))];
    var c := Load(Some(Workflow(Undefined, Some(Definition(Some(entries), Some(edges))), None, None)), Canvas([], [], []));
    assert c.nodes[0].id == "t" && c.nodes[0].kind == TriggerType;
    assert c.edges[0] in c.edges;
    assert FirstWithId(c.nodes, "t", 0);
  }
}
