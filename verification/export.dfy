/**
 Saving (`handleSaveWorkflow`, src/App.js:89-149): the canvas's saved
 workflow is turned into a backend document when the application talks to a
 real backend and the current workflow carries a `definition`, and is sent
 as it is otherwise. Every node goes into a node map under a key derived
 from its id; a later node whose key collides overwrites an earlier one.
 */
module Export {
  import opened Wrappers
  import opened JsValue
  import JsObject
  import Seqs
  import NodeKey
  import opened Editor
  import opened Document

  /** The backend `nodeType` for a canvas type: `Trigger`, `Controller`, and `Activity` for everything else. */
  function ApiNodeType(kind: string): (t: string)
    ensures t == "Trigger" <==> kind == TriggerType
    ensures t == "Controller" <==> kind == ControllerType
    ensures t == "Activity" <==> kind != TriggerType && kind != ControllerType
  {
    if kind == TriggerType then "Trigger"
    else if kind == ControllerType then "Controller"
    else "Activity"
  }

  /** `startToCloseTimeoutInMinutes` is written as the constant `1.0`, whatever the node had. */
  const ExportTimeout: Value := Num(1)

  /**
   One saved node as a backend node definition: the node's whole params go
   under a `params` key of `nodeParams`, inputs are empty, the activity name
   is the data's `activityName` when truthy and `<type>_activity` otherwise.
   */
  function ExportNode(n: SavedNode): (a: ApiNode)
    ensures a.nodeId == n.id && a.nodeName == n.name
    ensures a.nodeParams == Obj([("params", if Truthy(n.params) then n.params else EmptyObject)])
    ensures a.nodeInputs == EmptyObject
    ensures a.nodeType == Str(ApiNodeType(n.kind))
    ensures Truthy(Field(n.data, "activityName")) ==> a.activityName == Field(n.data, "activityName")
    ensures !Truthy(Field(n.data, "activityName")) ==> a.activityName == Str(n.kind + "_activity")
    ensures a.startToCloseTimeoutInMinutes == Num(1)
  {
    ApiNode(n.name, n.id, Obj([("params", Or(n.params, EmptyObject))]), EmptyObject,
      Str(ApiNodeType(n.kind)), Or(Field(n.data, "activityName"), Str(n.kind + "_activity")),
      ExportTimeout)
  }

  /** The key each saved node is stored under, in node order. */
  function KeyList(nodes: seq<SavedNode>): (ks: seq<string>)
    ensures |ks| == |nodes|
    ensures forall i :: 0 <= i < |nodes| ==> ks[i] == NodeKey.DeriveKey(nodes[i].id)
  {
    seq(|nodes|, i requires 0 <= i < |nodes| => NodeKey.DeriveKey(nodes[i].id))
  }

  /** No later node is stored under the key of node `i`: node `i` is the one its key keeps. */
  predicate LastWithKey(nodes: seq<SavedNode>, i: int)
    requires 0 <= i < |nodes|
  {
    forall j :: i < j < |nodes| ==> NodeKey.DeriveKey(nodes[j].id) != NodeKey.DeriveKey(nodes[i].id)
  }

  /** The `(key, definition)` assignments the save performs, one per node, in node order. */
  function Entries(nodes: seq<SavedNode>): (es: JsObject.Object<ApiNode>)
    ensures |es| == |nodes|
    ensures forall i :: 0 <= i < |nodes| ==> es[i] == (NodeKey.DeriveKey(nodes[i].id), ExportNode(nodes[i]))
  {
    seq(|nodes|, i requires 0 <= i < |nodes| => (NodeKey.DeriveKey(nodes[i].id), ExportNode(nodes[i])))
  }

  /**
   The node map built by `forEach` and `apiNodes[nodeKey] = …`: one entry per
   distinct derived key, enumerated in the order in which the keys are first
   written (a colliding node overwrites the value but not the slot), and each
   key holds the export of the LAST node stored under it.
   */
  function NodeMap(nodes: seq<SavedNode>): (m: JsObject.Object<ApiNode>)
    ensures JsObject.DistinctKeys(m)
    ensures JsObject.Keys(m) == Seqs.Elements(KeyList(nodes))
    ensures JsObject.InFirstOrder(m, KeyList(nodes))
    ensures forall i :: 0 <= i < |nodes| && LastWithKey(nodes, i) ==>
      JsObject.Get(m, NodeKey.DeriveKey(nodes[i].id)) == Some(ExportNode(nodes[i]))
  {
    AssignEntries(nodes);
    AssignEntriesOrder(nodes);
    JsObject.Assign([], Entries(nodes))
  }

  /** Assigning the entries one by one onto an empty object: what `NodeMap` promises. */
  lemma AssignEntries(nodes: seq<SavedNode>)
    ensures var m := JsObject.Assign([], Entries(nodes));
      && JsObject.DistinctKeys(m)
      && JsObject.Keys(m) == Seqs.Elements(KeyList(nodes))
      && forall i :: 0 <= i < |nodes| && LastWithKey(nodes, i) ==>
        JsObject.Get(m, NodeKey.DeriveKey(nodes[i].id)) == Some(ExportNode(nodes[i]))
  {
    var es := Entries(nodes);
    var m := JsObject.Assign([], es);
    EntriesKeys(nodes);
    assert JsObject.Keys(m) == JsObject.Keys(es);
    forall i | 0 <= i < |nodes| && LastWithKey(nodes, i)
      ensures JsObject.Get(m, NodeKey.DeriveKey(nodes[i].id)) == Some(ExportNode(nodes[i]))
    {
      EntriesLast(nodes, i);
    }
  }

  /** The entries are assigned in node order, so the map follows the first occurrence of each key in the key list. */
  lemma AssignEntriesOrder(nodes: seq<SavedNode>)
    ensures JsObject.InFirstOrder(JsObject.Assign([], Entries(nodes)), KeyList(nodes))
  {
    JsObject.AssignFirstOrder(Entries(nodes));
    EntriesKeySeq(nodes);
  }

  lemma EntriesKeySeq(nodes: seq<SavedNode>)
    ensures JsObject.KeySeq(Entries(nodes)) == KeyList(nodes)
  {
  }

  lemma EntriesKeys(nodes: seq<SavedNode>)
    ensures JsObject.Keys(Entries(nodes)) == Seqs.Elements(KeyList(nodes))
  {
    var es := Entries(nodes);
    forall k | k in Seqs.Elements(KeyList(nodes)) ensures k in JsObject.Keys(es) {
      var i :| 0 <= i < |nodes| && KeyList(nodes)[i] == k;
      assert es[i].0 == k;
    }
  }

  lemma EntriesLast(nodes: seq<SavedNode>, i: nat)
    requires i < |nodes| && LastWithKey(nodes, i)
    ensures JsObject.Get(Entries(nodes), NodeKey.DeriveKey(nodes[i].id)) == Some(ExportNode(nodes[i]))
  {
    var es := Entries(nodes);
    assert JsObject.LastOccurrence(es, i);
    JsObject.GetLast(es, i);
  }

  /**
   Every entry of the node map is the export of a node that its key kept,
   stored under that node's key.
   */
  lemma NodeMapEntries(nodes: seq<SavedNode>, e: nat)
    requires e < |NodeMap(nodes)|
    ensures exists l :: (0 <= l < |nodes| && LastWithKey(nodes, l) &&
      NodeMap(nodes)[e] == (NodeKey.DeriveKey(nodes[l].id), ExportNode(nodes[l])))
  {
    var m := NodeMap(nodes);
    var es := Entries(nodes);
    var k := m[e].0;
    JsObject.GetEntry(m, e);
    assert k in JsObject.Keys(es);
    var r := JsObject.Get(es, k);
    var l :| 0 <= l < |es| && es[l] == (k, r.value) && JsObject.LastOccurrence(es, l);
    assert LastWithKey(nodes, l) by {
      forall j | l < j < |nodes| ensures NodeKey.DeriveKey(nodes[j].id) != NodeKey.DeriveKey(nodes[l].id) {
        assert es[j].0 != es[l].0;
      }
    }
  }

  /**
   The map has at most one entry per node, and exactly one per node when no
   two nodes' keys collide.
   */
  lemma NodeMapSize(nodes: seq<SavedNode>)
    ensures |NodeMap(nodes)| <= |nodes|
    ensures |NodeMap(nodes)| == |nodes| <==> Seqs.Distinct(KeyList(nodes))
  {
    JsObject.DistinctKeysCard(NodeMap(nodes));
    Seqs.DistinctIffCard(KeyList(nodes));
  }

  /** Without key collisions the map lists every node, in node order, under its own key. */
  lemma NodeMapInOrder(nodes: seq<SavedNode>)
    requires Seqs.Distinct(KeyList(nodes))
    ensures |NodeMap(nodes)| == |nodes|
    ensures forall i :: 0 <= i < |nodes| ==>
      NodeMap(nodes)[i] == (NodeKey.DeriveKey(nodes[i].id), ExportNode(nodes[i]))
  {
    var es := Entries(nodes);
    assert JsObject.DistinctKeys(es) by {
      forall i, j | 0 <= i < j < |es| ensures es[i].0 != es[j].0 {
        assert KeyList(nodes)[i] != KeyList(nodes)[j];
      }
    }
    JsObject.AssignDistinct(es);
  }

  /**
   Silent data loss: when a later node with a different id shares node `i`'s
   key, and ids are unique, node `i` appears nowhere in the map.
   */
  lemma NodeMapLosesShadowed(nodes: seq<SavedNode>, i: nat, j: nat)
    requires i < j < |nodes|
    requires NodeKey.DeriveKey(nodes[i].id) == NodeKey.DeriveKey(nodes[j].id)
    requires forall a, b :: 0 <= a < b < |nodes| ==> nodes[a].id != nodes[b].id
    ensures forall e :: 0 <= e < |NodeMap(nodes)| ==> NodeMap(nodes)[e].1.nodeId != nodes[i].id
    ensures |NodeMap(nodes)| < |nodes|
  {
    forall e | 0 <= e < |NodeMap(nodes)| ensures NodeMap(nodes)[e].1.nodeId != nodes[i].id {
      NodeMapEntries(nodes, e);
    }
    NodeMapSize(nodes);
    assert KeyList(nodes)[i] == KeyList(nodes)[j];
  }

  /** The edge list: one backend edge per saved edge, in order, named by the edge's id. */
  function ExportEdges(edges: seq<SavedEdge>): (r: seq<ApiEdge>)
    ensures |r| == |edges|
    ensures forall i :: 0 <= i < |edges| ==>
      r[i].fromNodeId == edges[i].source && r[i].toNodeId == edges[i].target && r[i].edgeName == Some(edges[i].id)
  {
    seq(|edges|, i requires 0 <= i < |edges| => ApiEdge(edges[i].source, edges[i].target, Some(edges[i].id)))
  }

  /** The object sent to the server: a backend document, or `{workflow_id, ...workflowData}`. */
  datatype Update =
    | ApiUpdate(workflowId: string, definition: Definition)
    | DemoUpdate(workflowId: string, data: SavedWorkflow)

  /** Whether the save converts to the backend format: not in demo mode and the current workflow has a definition. */
  predicate UsesApiFormat(isDemo: bool, current: Option<Workflow>) {
    !isDemo && current.Some? && current.value.definition.Some?
  }

  function BuildUpdate(isDemo: bool, current: Option<Workflow>, saved: SavedWorkflow, workflowId: string): (u: Update)
    ensures u.workflowId == workflowId
    ensures u.ApiUpdate? <==> UsesApiFormat(isDemo, current)
    ensures u.ApiUpdate? ==> u.definition == Definition(Some(NodeMap(saved.nodes)), Some(ExportEdges(saved.edges)))
    ensures u.DemoUpdate? ==> u.data == saved
  {
    if UsesApiFormat(isDemo, current) then
      ApiUpdate(workflowId, Definition(Some(NodeMap(saved.nodes)), Some(ExportEdges(saved.edges))))
    else
      DemoUpdate(workflowId, saved)
  }

  /**
   The result of one save: the update built, whether it was sent to the
   server, the application's workflow afterwards, and whether an error was
   reported.
   */
  datatype SaveOutcome = SaveOutcome(update: Update, submitted: bool, workflow: Option<Workflow>, failed: bool)

  /** `{...prev, definition: update.definition}`; a missing `prev` spreads nothing. */
  function WithDefinition(prev: Option<Workflow>, definition: Option<Definition>): Workflow {
    match prev
    case None => Workflow(Undefined, definition, None, None)
    case Some(w) => w.(definition := definition)
  }

  /**
   `handleSaveWorkflow`. The server's answer is the parameter `accepted`. In
   demo mode nothing is sent and the workflow is unchanged; otherwise the
   update is sent, and when the server accepts it the workflow's definition
   becomes the update's definition (none at all for an update in the
   editor's format), while a rejection leaves the workflow as it was and
   reports an error.
   */
  function SaveWorkflow(isDemo: bool, current: Option<Workflow>, saved: SavedWorkflow, workflowId: string, accepted: bool): (r: SaveOutcome)
    ensures r.update == BuildUpdate(isDemo, current, saved, workflowId)
    ensures r.submitted <==> !isDemo
    ensures r.failed <==> !isDemo && !accepted
    ensures isDemo || !accepted ==> r.workflow == current
    ensures !isDemo && accepted ==> r.workflow.Some?
    ensures !isDemo && accepted && current.Some? ==>
      r.workflow.value.workflowId == current.value.workflowId
      && r.workflow.value.nodes == current.value.nodes
      && r.workflow.value.edges == current.value.edges
    ensures !isDemo && accepted ==>
      (r.workflow.value.definition.Some? <==> current.Some? && current.value.definition.Some?)
    ensures !isDemo && accepted && r.update.ApiUpdate? ==> r.workflow.value.definition == Some(r.update.definition)
  {
    var u := BuildUpdate(isDemo, current, saved, workflowId);
    if isDemo then SaveOutcome(u, false, current, false)
    else if !accepted then SaveOutcome(u, true, current, true)
    else
      var definition := if u.ApiUpdate? then Some(u.definition) else None;
      SaveOutcome(u, true, Some(WithDefinition(current, definition)), false)
  }
}
