/**
 Loading and saving composed. A backend document loaded onto the canvas and
 saved again without edits is not the document it was: node types are
 canonicalised, the params object is wrapped once more under `params`, the
 activity name becomes `<type>_activity` and the timeout `1`. A canvas saved
 to the backend and reloaded keeps ids, names and edges (when keys do not
 collide) but loses its layout.
 */
module RoundTrip {
  import opened Wrappers
  import opened JsValue
  import JsObject
  import Seqs
  import NodeKey
  import opened Editor
  import opened Document
  import opened Import
  import opened Export

  /** The canvas type a saved node comes back with: a known type is kept, anything else becomes an activity. */
  lemma TypeRoundTrip(kind: string)
    ensures EditorType(Str(ApiNodeType(kind))) == if IsKnownType(kind) then kind else ActivityType
  {
  }

  /** The backend type a document node goes back out with: `Trigger` and `Controller` are kept, anything else becomes `Activity`. */
  lemma ApiTypeRoundTrip(nodeType: Value)
    ensures nodeType == Str("Trigger") || nodeType == Str("Controller") ==>
      Str(ApiNodeType(EditorType(nodeType))) == nodeType
    ensures nodeType != Str("Trigger") && nodeType != Str("Controller") ==>
      Str(ApiNodeType(EditorType(nodeType))) == Str("Activity")
  {
  }

  /**
   What a document node `a` becomes once loaded and saved: stored under the
   key derived from its id, with its id and name, a canonical type, params
   nested one level deeper, empty inputs, the activity name `<type>_activity`
   (its own name is lost) and timeout 1.
   */
  predicate ExportedAfterImport(a: ApiNode, entry: (string, ApiNode)) {
    var b := entry.1;
    && entry.0 == NodeKey.DeriveKey(a.nodeId)
    && b.nodeId == a.nodeId
    && b.nodeName == a.nodeName
    && b.nodeParams == Obj([("params", Or(a.nodeParams, EmptyObject))])
    && b.nodeInputs == EmptyObject
    && (a.nodeType in {Str("Trigger"), Str("Controller")} ==> b.nodeType == a.nodeType)
    && (a.nodeType !in {Str("Trigger"), Str("Controller")} ==> b.nodeType == Str("Activity"))
    && b.activityName == Str(EditorType(a.nodeType) + "_activity")
    && b.startToCloseTimeoutInMinutes == Num(1)
  }

  /** One document node imported at entry `index`, projected for saving and exported again. */
  lemma ExportImportedNode(a: ApiNode, index: nat)
    ensures ExportedAfterImport(a, (NodeKey.DeriveKey(a.nodeId), ExportNode(SaveNode(ImportApiNode(a, index)))))
  {
    ImportApiNodeData(a, index);
    ApiTypeRoundTrip(a.nodeType);
  }

  /** Loading distinct-key document nodes and saving them gives distinct keys again. */
  lemma ImportedKeysDistinct(entries: JsObject.Object<ApiNode>, edges: seq<ApiEdge>, selected: seq<Node>)
    requires forall i, j :: 0 <= i < j < |entries| ==>
      NodeKey.DeriveKey(entries[i].1.nodeId) != NodeKey.DeriveKey(entries[j].1.nodeId)
    ensures Seqs.Distinct(KeyList(SaveProjection(Canvas(ImportApiNodes(entries), ImportApiEdges(edges), selected)).nodes))
  {
    var saved := SaveProjection(Canvas(ImportApiNodes(entries), ImportApiEdges(edges), selected));
    forall i, j | 0 <= i < j < |saved.nodes| ensures KeyList(saved.nodes)[i] != KeyList(saved.nodes)[j] {
      assert saved.nodes[i].id == entries[i].1.nodeId && saved.nodes[j].id == entries[j].1.nodeId;
    }
  }

  /**
   A backend document loaded and saved without edits: with no key collision,
   the node map has one entry per document node, in document order, each
   what `ExportedAfterImport` describes, so the document's own keys are
   replaced by derived ones and the round trip is not the identity.
   */
  lemma ExportAfterImport(entries: JsObject.Object<ApiNode>, edges: seq<ApiEdge>, selected: seq<Node>)
    requires forall i, j :: 0 <= i < j < |entries| ==>
      NodeKey.DeriveKey(entries[i].1.nodeId) != NodeKey.DeriveKey(entries[j].1.nodeId)
    ensures var saved := SaveProjection(Canvas(ImportApiNodes(entries), ImportApiEdges(edges), selected));
      var m := NodeMap(saved.nodes);
      && |m| == |entries|
      && forall i :: 0 <= i < |entries| ==> ExportedAfterImport(entries[i].1, m[i])
  {
    var saved := SaveProjection(Canvas(ImportApiNodes(entries), ImportApiEdges(edges), selected));
    ImportedKeysDistinct(entries, edges, selected);
    NodeMapInOrder(saved.nodes);
    var m := NodeMap(saved.nodes);
    forall i | 0 <= i < |entries| ensures ExportedAfterImport(entries[i].1, m[i]) {
      var a := entries[i].1;
      var n := saved.nodes[i];
      assert n == SaveNode(ImportApiNode(a, i));
      assert m[i] == (NodeKey.DeriveKey(n.id), ExportNode(n));
      assert n.id == a.nodeId;
      ExportImportedNode(a, i);
    }
  }

  /**
   A document's edges loaded and saved: same endpoints in the same order; a
   non-empty edge name survives, a missing or empty one comes back as
   `edge-<index>`.
   */
  lemma EdgesAfterImport(edges: seq<ApiEdge>, nodes: seq<Node>, selected: seq<Node>)
    ensures var out := ExportEdges(SaveProjection(Canvas(nodes, ImportApiEdges(edges), selected)).edges);
      && |out| == |edges|
      && forall i :: 0 <= i < |edges| ==>
        && out[i].fromNodeId == edges[i].fromNodeId
        && out[i].toNodeId == edges[i].toNodeId
        && (edges[i].edgeName.Some? && edges[i].edgeName.value != "" ==> out[i].edgeName == edges[i].edgeName)
        && (edges[i].edgeName.None? || edges[i].edgeName.value == "" ==> out[i].edgeName == Some("edge-" + NatToString(i)))
  {
  }

  /**
   What a saved node `n` becomes once written to the backend format and read
   back at entry `index`: same id and name, a known type, the layout
   position of that type and index, and params nested one level deeper.
   */
  predicate ImportedAfterExport(n: SavedNode, index: nat, r: Node) {
    && r.id == n.id
    && r.kind == (if IsKnownType(n.kind) then n.kind else ActivityType)
    && r.position == LayoutPosition(r.kind, index)
    && Field(r.data, "name") == n.name
    && Field(r.data, "params") == Obj([("params", Or(n.params, EmptyObject))])
  }

  /** One saved node exported and imported again at entry `index`. */
  lemma ImportExportedNode(n: SavedNode, index: nat)
    ensures ImportedAfterExport(n, index, ImportApiNode(ExportNode(n), index))
  {
    ImportApiNodeData(ExportNode(n), index);
    TypeRoundTrip(n.kind);
  }

  /**
   A saved canvas written to the backend format and read back: with no key
   collision every node returns in order as `ImportedAfterExport` describes
   (wherever it had been dragged, it is back at its layout position), and
   every edge returns with its endpoints, labelled with its id.
   */
  lemma ImportAfterExport(saved: SavedWorkflow)
    requires Seqs.Distinct(KeyList(saved.nodes))
    ensures var nodes := ImportApiNodes(NodeMap(saved.nodes));
      && |nodes| == |saved.nodes|
      && forall i :: 0 <= i < |nodes| ==> ImportedAfterExport(saved.nodes[i], i, nodes[i])
    ensures var edges := ImportApiEdges(ExportEdges(saved.edges));
      && |edges| == |saved.edges|
      && forall i :: 0 <= i < |edges| ==>
        && edges[i].source == saved.edges[i].source
        && edges[i].target == saved.edges[i].target
        && edges[i].edgeLabel == Some(saved.edges[i].id)
        && (saved.edges[i].id != "" ==> edges[i].id == saved.edges[i].id)
  {
    var m := NodeMap(saved.nodes);
    NodeMapInOrder(saved.nodes);
    var nodes := ImportApiNodes(m);
    forall i | 0 <= i < |nodes| ensures ImportedAfterExport(saved.nodes[i], i, nodes[i]) {
      assert m[i].1 == ExportNode(saved.nodes[i]);
      assert nodes[i] == ImportApiNode(ExportNode(saved.nodes[i]), i);
      ImportExportedNode(saved.nodes[i], i);
    }
  }

  /** Wrapping truthy params under `params` and defaulting with `|| {}` gives the wrapper, which never equals the params. */
  lemma ParamsNeverSettle(params: Value)
    requires Truthy(params)
    ensures Or(Obj([("params", Or(params, EmptyObject))]), EmptyObject) == Obj([("params", params)])
    ensures Obj([("params", params)]) != params
  {
    assert ("params", params) in [("params", params)];
  }

  /**
   A saved node sent to the backend, read back at entry `index` and saved
   again: its params gain one `params` level (falsy params become
   `{params: {}}`), so truthy params never come back as they were.
   */
  lemma SaveReloadWrapsParams(n: SavedNode, index: nat)
    ensures var again := SaveNode(ImportApiNode(ExportNode(n), index));
      && (Truthy(n.params) ==> again.params == Obj([("params", n.params)]) && again.params != n.params)
      && (!Truthy(n.params) ==> again.params == Obj([("params", EmptyObject)]))
  {
    ImportExportedNode(n, index);
    if Truthy(n.params) {
      ParamsNeverSettle(n.params);
    }
  }

  /**
   A save to the backend followed by the reload it triggers: the canvas shows
   exactly the saved canvas converted to the backend format and read back.
   */
  lemma SaveThenReload(current: Workflow, c: Canvas, workflowId: string)
    requires current.definition.Some?
    ensures var saved := SaveProjection(c);
      var out := SaveWorkflow(false, Some(current), saved, workflowId, true);
      && out.submitted && !out.failed
      && Load(out.workflow, c) ==
        Canvas(ImportApiNodes(NodeMap(saved.nodes)), ImportApiEdges(ExportEdges(saved.edges)), c.selected)
  {
  }

  /**
   Saving to the backend while the workflow is in the editor's own format
   sends the editor format, clears `definition`, and the reload then shows
   the workflow's original nodes and edges again, not the saved ones.
   */
  lemma SaveInEditorFormatReloadsOriginal(current: Workflow, c: Canvas, workflowId: string)
    requires current.definition.None?
    ensures var out := SaveWorkflow(false, Some(current), SaveProjection(c), workflowId, true);
      && out.update.DemoUpdate?
      && Load(out.workflow, c) == Load(Some(current), c)
  {
  }

  /** Saved nodes `a-b` then `ab` share the key `abNode`: the map keeps one entry, the export of `ab`. */
  lemma CollidingNodeMap(nodes: seq<SavedNode>)
    requires |nodes| == 2 && nodes[0].id == "a-b" && nodes[1].id == "ab"
    ensures |NodeMap(nodes)| == 1 && NodeMap(nodes)[0].1.nodeId == "ab"
  {
    NodeKey.DeriveKeyNotInjective();
    var m := NodeMap(nodes);
    assert KeyList(nodes)[0] == KeyList(nodes)[1];
    NodeMapSize(nodes);
    assert KeyList(nodes)[1] in JsObject.Keys(m);
    NodeMapEntries(nodes, 0);
    assert !LastWithKey(nodes, 0);
  }

  /**
   Two canvas nodes whose ids differ only by a hyphen share a key: after a
   save to the backend and the reload, only the later one is on the canvas.
   */
  lemma SaveThenReloadLosesCollidingNode(current: Workflow, workflowId: string)
    requires current.definition.Some?
    ensures var c := Canvas([Node("a-b", ActivityType, Position(0, 0), []), Node("ab", ActivityType, Position(0, 0), [])], [], []);
      var out := SaveWorkflow(false, Some(current), SaveProjection(c), workflowId, true);
      var r := Load(out.workflow, c);
      && |r.nodes| == 1
      && r.nodes[0].id == "ab"
  {
    var c := Canvas([Node("a-b", ActivityType, Position(0, 0), []), Node("ab", ActivityType, Position(0, 0), [])], [], []);
    SaveThenReload(current, c, workflowId);
    CollidingNodeMap(SaveProjection(c).nodes);
  }

  /** Reloading forgets where nodes were dragged: every node sits at its layout position. */
  lemma SaveThenReloadResetsLayout(current: Workflow, c: Canvas, workflowId: string)
    requires current.definition.Some?
    ensures var out := SaveWorkflow(false, Some(current), SaveProjection(c), workflowId, true);
      var r := Load(out.workflow, c);
      forall i :: 0 <= i < |r.nodes| ==> r.nodes[i].position == LayoutPosition(r.nodes[i].kind, i)
  {
  }
}
