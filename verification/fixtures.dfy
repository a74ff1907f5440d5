/**
 The sample backend documents shipped with the application
 (src/data/testWorkflowData.js): a four-node email workflow that the
 application falls back to when the backend cannot be reached, and a
 two-node alternative. The lemmas of module Fixtures trace them through loading and saving.
 */
module SampleData {
  import opened Wrappers
  import opened JsValue
  import JsObject
  import opened Document

  const CategorizeId: string := "categorize-email-node"
  const TriggerId: string := "email-create-trigger-node"
  const PaymentId: string := "payment-advice-parsing-node"
  const ControllerId: string := "is-payment-advice-shared-controller"

  const ConditionDict: string :=
    "{\"_type\": \"STATEMENT_TYPE\", \"lhs\": {\"left_statement\": null, \"right_statement\": null, \"operator\": null, \"value_placeholder\": \"$edge2.categorization.categories[0]\", \"value\": null}, \"rhs\": {\"left_statement\": null, \"right_statement\": null, \"operator\": null, \"value_placeholder\": null, \"value\": \"PAYMENT_ADVICE_SHARED\"}, \"operator\": \"CONTAINS\"}"

  const PaymentParams: Value := Obj([("emailId", Str("$edge3.email_id"))])

  /**
   The controller's parameters: the condition it evaluates (held as text under
   `dataclassDict`), the edge it reads and the edge it feeds when the
   condition holds.
   */
  function ControllerParams(condition: string): Value {
    Obj([
      ("condition", Obj([("dataclassDict", Str(condition))])),
      ("inputEdgeName", Str("edge2")),
      ("trueEdgeOutput", Str("edge3"))])
  }

  const CategorizeNode: ApiNode := ApiNode(Str("Determine category for email node"), CategorizeId,
    Obj([("params", EmptyObject)]), EmptyObject, Str("Activity"), Str("categorize_email_activity"), Num(1))

  const TriggerNode: ApiNode := ApiNode(Str("Create Email Trigger Node"), TriggerId,
    Obj([("params", EmptyObject)]), EmptyObject, Str("Trigger"), Str("create_or_update_mail_trigger"), Num(1))

  const PaymentNode: ApiNode := ApiNode(Str("Parse contents of payment advice"), PaymentId,
    Obj([("params", PaymentParams)]), EmptyObject, Str("Activity"), Str("payment_advice_parsing_activity"), Num(10))

  function ControllerNode(condition: string): ApiNode {
    ApiNode(Str("Check if payment advice is shared"), ControllerId,
      Obj([("params", ControllerParams(condition))]), EmptyObject, Str("Controller"), Str("if_else_activity"), Num(1))
  }

  /**
   The node map of `testWorkflowResponse`, in document order. It is written
   for any condition text so that the facts below do not depend on it; the
   sample's own text is `ConditionDict`.
   */
  function TestNodes(condition: string): JsObject.Object<ApiNode> {
    [("categorizeEmailNode", CategorizeNode),
     ("emailCreateTriggerNode", TriggerNode),
     ("paymentAdviceParsingNode", PaymentNode),
     ("isPaymentAdviceSharedController", ControllerNode(condition))]
  }

  const TestEdges: seq<ApiEdge> := [
    ApiEdge(TriggerId, CategorizeId, Some("edge1")),
    ApiEdge(CategorizeId, ControllerId, Some("edge2")),
    ApiEdge(ControllerId, PaymentId, Some("edge3"))]

  /** `testWorkflowResponse`, with the controller's condition as given. */
  function TestWorkflow(condition: string): Workflow {
    Workflow(Str("twflow_b210db0a85"), Some(Definition(Some(TestNodes(condition)), Some(TestEdges))), None, None)
  }

  const TestWorkflowResponse: Workflow := TestWorkflow(ConditionDict)

  /** `alternativeTestWorkflow`. */
  const AlternativeNodes: JsObject.Object<ApiNode> := [
    ("simpleEmailTrigger", ApiNode(Str("Simple Email Trigger"), "simple-email-trigger",
      Obj([("params", EmptyObject)]), EmptyObject, Str("Trigger"), Str("email_trigger_activity"), Num(1))),
    ("processEmailActivity", ApiNode(Str("Process Email Content"), "process-email-activity",
      Obj([("params", EmptyObject)]), EmptyObject, Str("Activity"), Str("process_email_activity"), Num(5)))]

  const AlternativeTestWorkflow: Workflow :=
    Workflow(Str("twflow_alternative"),
      Some(Definition(Some(AlternativeNodes), Some([ApiEdge("simple-email-trigger", "process-email-activity", Some("edge1"))]))),
      None, None)
}

/** The sample documents traced through loading and saving. */
module Fixtures {
  import opened Wrappers
  import opened JsValue
  import JsObject
  import Seqs
  import NodeKey
  import opened Editor
  import opened Document
  import opened Import
  import opened Export
  import RoundTrip
  import opened SampleData

  const Empty: Canvas := Canvas([], [], [])

  /** The sample is a backend document: loading it imports its node map and its edge list. */
  lemma TestWorkflowImports(condition: string, selected: seq<Node>)
    ensures Load(Some(TestWorkflow(condition)), Canvas([], [], selected))
      == Canvas(ImportApiNodes(TestNodes(condition)), ImportApiEdges(TestEdges), selected)
  {
  }

  lemma TestNodeIds(condition: string)
    ensures var nodes := ImportApiNodes(TestNodes(condition));
      && |nodes| == 4
      && nodes[0].id == CategorizeId && nodes[1].id == TriggerId
      && nodes[2].id == PaymentId && nodes[3].id == ControllerId
  {
  }

  lemma TestNodeKinds(condition: string)
    ensures var nodes := ImportApiNodes(TestNodes(condition));
      && nodes[0].kind == ActivityType && nodes[1].kind == TriggerType
      && nodes[2].kind == ActivityType && nodes[3].kind == ControllerType
  {
  }

  lemma TestNodeLayout(condition: string)
    ensures var nodes := ImportApiNodes(TestNodes(condition));
      && nodes[0].position == Position(650, 100) && nodes[1].position == Position(50, 250)
      && nodes[2].position == Position(650, 340) && nodes[3].position == Position(350, 450)
  {
    TestNodeKinds(condition);
  }

  /**
   The sample loads as four nodes and three edges, in document order.
   Positions follow the global entry index: the trigger, second in the
   document, sits at y = 250, not at the top of its column.
   */
  lemma TestWorkflowLoads(condition: string)
    ensures var c := Load(Some(TestWorkflow(condition)), Empty);
      && |c.nodes| == 4 && |c.edges| == 3
      && c.nodes[0].id == CategorizeId && c.nodes[1].id == TriggerId
      && c.nodes[2].id == PaymentId && c.nodes[3].id == ControllerId
      && c.nodes[0].kind == ActivityType && c.nodes[1].kind == TriggerType
      && c.nodes[2].kind == ActivityType && c.nodes[3].kind == ControllerType
      && c.nodes[0].position == Position(650, 100) && c.nodes[1].position == Position(50, 250)
      && c.nodes[2].position == Position(650, 340) && c.nodes[3].position == Position(350, 450)
      && c.edges == ImportApiEdges(TestEdges)
  {
    TestWorkflowImports(condition, []);
    TestNodeIds(condition);
    TestNodeKinds(condition);
    TestNodeLayout(condition);
  }

  /** The loaded sample's node ids are unique. */
  lemma TestWorkflowUniqueIds(condition: string)
    ensures UniqueIds(Load(Some(TestWorkflow(condition)), Empty).nodes)
  {
    TestWorkflowImports(condition, []);
    forall i, j | 0 <= i < j < |TestNodes(condition)| ensures TestNodes(condition)[i].1.nodeId != TestNodes(condition)[j].1.nodeId {
      assert TestNodes(condition)[i].1.nodeId[0] != TestNodes(condition)[j].1.nodeId[0];
    }
    ImportUniqueIds(TestNodes(condition));
  }

  /** Every edge of the loaded sample runs between loaded nodes. */
  lemma TestWorkflowEdgesClosed(condition: string)
    ensures var c := Load(Some(TestWorkflow(condition)), Empty);
      EdgesClosed(c.nodes, c.edges)
  {
    TestEdgeEndpointsKnown(condition);
    ImportEdgesClosed(TestNodes(condition), TestEdges);
    TestWorkflowImports(condition, []);
  }

  /** Each endpoint of each sample edge is the `nodeId` of one of the sample's node definitions. */
  lemma TestEdgeEndpointsKnown(condition: string)
    ensures forall k :: 0 <= k < |TestEdges| ==>
      DocumentHasNode(TestNodes(condition), TestEdges[k].fromNodeId) && DocumentHasNode(TestNodes(condition), TestEdges[k].toNodeId)
  {
    var entries := TestNodes(condition);
    assert DocumentHasNode(entries, CategorizeId) by { assert entries[0].1.nodeId == CategorizeId; }
    assert DocumentHasNode(entries, TriggerId) by { assert entries[1].1.nodeId == TriggerId; }
    assert DocumentHasNode(entries, PaymentId) by { assert entries[2].1.nodeId == PaymentId; }
    assert DocumentHasNode(entries, ControllerId) by { assert entries[3].1.nodeId == ControllerId; }
  }

  /** No edge of the loaded sample enters its trigger. */
  lemma TestWorkflowNoEdgeIntoTrigger(condition: string)
    ensures var c := Load(Some(TestWorkflow(condition)), Empty);
      NoEdgeIntoTrigger(c.nodes, c.edges)
  {
    forall k | 0 <= k < |TestEdges| ensures !DocumentHasTrigger(TestNodes(condition), TestEdges[k].toNodeId) {
      forall i | 0 <= i < |TestNodes(condition)| && TestNodes(condition)[i].1.nodeId == TestEdges[k].toNodeId
        ensures TestNodes(condition)[i].1.nodeType != Str("Trigger")
      {
        assert TestNodes(condition)[i].1.nodeId[0] == TestEdges[k].toNodeId[0];
      }
    }
    ImportNoEdgeIntoTrigger(TestNodes(condition), TestEdges);
    TestWorkflowImports(condition, []);
  }

  /** The sample's edges keep their names as ids and labels. */
  lemma TestWorkflowEdgeNames(condition: string)
    ensures var c := Load(Some(TestWorkflow(condition)), Empty);
      && c.edges[0] == Edge("edge1", TriggerId, CategorizeId, Some("edge1"))
      && c.edges[1] == Edge("edge2", CategorizeId, ControllerId, Some("edge2"))
      && c.edges[2] == Edge("edge3", ControllerId, PaymentId, Some("edge3"))
  {
    TestWorkflowLoads(condition);
    var edges := ImportApiEdges(TestEdges);
    assert edges[0] == Edge("edge1", TriggerId, CategorizeId, Some("edge1"));
    assert edges[1] == Edge("edge2", CategorizeId, ControllerId, Some("edge2"));
    assert edges[2] == Edge("edge3", ControllerId, PaymentId, Some("edge3"));
  }

  /** The controller's parameters, which name the edges it reads and feeds, reach the canvas unchanged. */
  lemma TestControllerParams(condition: string)
    ensures Field(Load(Some(TestWorkflow(condition)), Empty).nodes[3].data, "params") == Obj([("params", ControllerParams(condition))])
  {
    TestWorkflowImports(condition, []);
    assert ImportApiNodes(TestNodes(condition))[3] == ImportApiNode(ControllerNode(condition), 3);
    ImportApiNodeData(ControllerNode(condition), 3);
  }

  /** The payment parser's parameters reach the canvas unchanged. */
  lemma TestPaymentParams(condition: string)
    ensures Field(Load(Some(TestWorkflow(condition)), Empty).nodes[2].data, "params") == Obj([("params", PaymentParams)])
  {
    TestWorkflowImports(condition, []);
    assert ImportApiNodes(TestNodes(condition))[2] == ImportApiNode(PaymentNode, 2);
    ImportApiNodeData(PaymentNode, 2);
  }

  /** The edge names the sample's parameters mention. */
  lemma TestParamsNameEdges(condition: string)
    ensures Field(PaymentParams.fields, "emailId") == Str("$edge3.email_id")
    ensures Field(ControllerParams(condition).fields, "inputEdgeName") == Str("edge2")
    ensures Field(ControllerParams(condition).fields, "trueEdgeOutput") == Str("edge3")
  {
    var fields := ControllerParams(condition).fields;
    assert JsObject.Get(fields, "inputEdgeName") == JsObject.Get(fields[..2], "inputEdgeName");
  }

  /**
   On the loaded sample, the edge a node's parameters name is the edge at that
   node: the payment parser reads `$edge3.…` and `edge3` is exactly its
   incoming edge; the controller reads `edge2`, exactly its incoming edge, and
   feeds `edge3`, exactly its outgoing edge.
   */
  lemma TestEdgeReferences(condition: string)
    ensures var c := Load(Some(TestWorkflow(condition)), Empty);
      && |c.nodes| == 4
      && c.nodes[2].id == PaymentId && c.nodes[3].id == ControllerId
      && Field(c.nodes[2].data, "params") == Obj([("params", PaymentParams)])
      && Field(c.nodes[3].data, "params") == Obj([("params", ControllerParams(condition))])
      && Field(PaymentParams.fields, "emailId") == Str("$edge3.email_id")
      && Field(ControllerParams(condition).fields, "inputEdgeName") == Str("edge2")
      && Field(ControllerParams(condition).fields, "trueEdgeOutput") == Str("edge3")
      && (forall k :: 0 <= k < |c.edges| ==> (c.edges[k].target == PaymentId <==> c.edges[k].id == "edge3"))
      && (forall k :: 0 <= k < |c.edges| ==> (c.edges[k].target == ControllerId <==> c.edges[k].id == "edge2"))
      && (forall k :: 0 <= k < |c.edges| ==> (c.edges[k].source == ControllerId <==> c.edges[k].id == "edge3"))
  {
    var c := Load(Some(TestWorkflow(condition)), Empty);
    TestWorkflowImports(condition, []);
    TestNodeIds(condition);
    assert c.edges == ImportApiEdges(TestEdges);
    TestEdgeRoles();
    TestPaymentParams(condition);
    TestControllerParams(condition);
    TestParamsNameEdges(condition);
  }

  /** Which sample edge enters the payment parser, enters the controller and leaves the controller. */
  lemma TestEdgeRoles()
    ensures var es := ImportApiEdges(TestEdges);
      && (forall k :: 0 <= k < |es| ==> (es[k].target == PaymentId <==> es[k].id == "edge3"))
      && (forall k :: 0 <= k < |es| ==> (es[k].target == ControllerId <==> es[k].id == "edge2"))
      && (forall k :: 0 <= k < |es| ==> (es[k].source == ControllerId <==> es[k].id == "edge3"))
  {
    var es := ImportApiEdges(TestEdges);
    assert es[0] == Edge("edge1", TriggerId, CategorizeId, Some("edge1"));
    assert es[1] == Edge("edge2", CategorizeId, ControllerId, Some("edge2"));
    assert es[2] == Edge("edge3", ControllerId, PaymentId, Some("edge3"));
  }

  /** The connection rule accepts every edge of the loaded sample: it has unique ids and no edge into its trigger. */
  lemma TestWorkflowEdgesValid(condition: string)
    ensures var c := Load(Some(TestWorkflow(condition)), Empty);
      forall k :: 0 <= k < |c.edges| ==> IsValidConnection(c.nodes, Connection(c.edges[k].source, c.edges[k].target))
  {
    var c := Load(Some(TestWorkflow(condition)), Empty);
    TestWorkflowUniqueIds(condition);
    TestWorkflowNoEdgeIntoTrigger(condition);
    forall k | 0 <= k < |c.edges| ensures IsValidConnection(c.nodes, Connection(c.edges[k].source, c.edges[k].target)) {
      assert c.edges[k] in c.edges;
      ValidConnectionUniqueIds(c.nodes, Connection(c.edges[k].source, c.edges[k].target));
    }
  }

  /** Ids that start with pairwise different lower-case characters (no hyphen) get pairwise different keys. */
  lemma KeysDistinctByFirstChar(entries: JsObject.Object<ApiNode>)
    requires forall i :: 0 <= i < |entries| ==>
      |entries[i].1.nodeId| > 0 && entries[i].1.nodeId[0] != '-' && !NodeKey.IsUpper(entries[i].1.nodeId[0])
    requires forall i, j :: 0 <= i < j < |entries| ==> entries[i].1.nodeId[0] != entries[j].1.nodeId[0]
    ensures forall i, j :: 0 <= i < j < |entries| ==>
      NodeKey.DeriveKey(entries[i].1.nodeId) != NodeKey.DeriveKey(entries[j].1.nodeId)
  {
    forall i | 0 <= i < |entries| ensures NodeKey.DeriveKey(entries[i].1.nodeId)[0] == entries[i].1.nodeId[0] {
      NodeKey.DeriveKeyFirst(entries[i].1.nodeId);
    }
  }

  /**
   Entries whose ids have no upper-case letter and whose document keys are
   camel-cased (an upper-case letter at `uppers[i]`, before the last four
   characters) are never stored back under their own keys.
   */
  lemma KeysMissDocumentKeys(entries: JsObject.Object<ApiNode>, uppers: seq<nat>)
    requires |uppers| == |entries|
    requires forall i, k :: 0 <= i < |entries| && 0 <= k < |entries[i].1.nodeId| ==> !NodeKey.IsUpper(entries[i].1.nodeId[k])
    requires forall i :: 0 <= i < |entries| ==> uppers[i] + 4 < |entries[i].0| && NodeKey.IsUpper(entries[i].0[uppers[i]])
    ensures forall i :: 0 <= i < |entries| ==> NodeKey.DeriveKey(entries[i].1.nodeId) != entries[i].0
  {
    forall i | 0 <= i < |entries| ensures NodeKey.DeriveKey(entries[i].1.nodeId) != entries[i].0 {
      NodeKey.DeriveKeyMissesCamelCase(entries[i].1.nodeId, entries[i].0, uppers[i]);
    }
  }

  /**
   The keys a conversion to the backend format derives for the sample's nodes
   are pairwise different (they start with `c`, `e`, `p` and `i`): no node is lost.
   */
  lemma TestWorkflowKeysDistinct(condition: string)
    ensures forall i, j :: 0 <= i < j < |TestNodes(condition)| ==>
      NodeKey.DeriveKey(TestNodes(condition)[i].1.nodeId) != NodeKey.DeriveKey(TestNodes(condition)[j].1.nodeId)
  {
    KeysDistinctByFirstChar(TestNodes(condition));
  }

  /** None of them is the key the document used: the code strips hyphens without camel-casing. */
  lemma TestWorkflowKeysRenamed(condition: string)
    ensures forall i :: 0 <= i < |TestNodes(condition)| ==> NodeKey.DeriveKey(TestNodes(condition)[i].1.nodeId) != TestNodes(condition)[i].0
  {
    forall i | 0 <= i < |TestNodes(condition)| ensures NodeKey.DeriveKey(TestNodes(condition)[i].1.nodeId) != TestNodes(condition)[i].0 {
      if i == 0 {
        assert TestNodes(condition)[i] == ("categorizeEmailNode", CategorizeNode);
        CategorizeKeyRenamed();
      } else if i == 1 {
        assert TestNodes(condition)[i] == ("emailCreateTriggerNode", TriggerNode);
        TriggerKeyRenamed();
      } else if i == 2 {
        assert TestNodes(condition)[i] == ("paymentAdviceParsingNode", PaymentNode);
        PaymentKeyRenamed();
      } else {
        assert TestNodes(condition)[i] == ("isPaymentAdviceSharedController", ControllerNode(condition));
        ControllerKeyRenamed();
      }
    }
  }

  lemma CategorizeKeyRenamed()
    ensures NodeKey.DeriveKey(CategorizeId) != "categorizeEmailNode"
  {
    NodeKey.DeriveKeyMissesCamelCase(CategorizeId, "categorizeEmailNode", 10);
  }

  lemma TriggerKeyRenamed()
    ensures NodeKey.DeriveKey(TriggerId) != "emailCreateTriggerNode"
  {
    NodeKey.DeriveKeyMissesCamelCase(TriggerId, "emailCreateTriggerNode", 5);
  }

  lemma PaymentKeyRenamed()
    ensures NodeKey.DeriveKey(PaymentId) != "paymentAdviceParsingNode"
  {
    NodeKey.DeriveKeyMissesCamelCase(PaymentId, "paymentAdviceParsingNode", 7);
  }

  lemma ControllerKeyRenamed()
    ensures NodeKey.DeriveKey(ControllerId) != "isPaymentAdviceSharedController"
  {
    NodeKey.DeriveKeyMissesCamelCase(ControllerId, "isPaymentAdviceSharedController", 2);
  }

  /**
   The sample itself is only ever saved in demo mode: the application loads it
   as fallback data and marks the session as demo, so a save sends nothing,
   builds no node map and leaves the workflow as it is.
   */
  lemma TestWorkflowSavedLocally(condition: string, c: Canvas, workflowId: string, accepted: bool)
    ensures var out := SaveWorkflow(true, Some(TestWorkflow(condition)), SaveProjection(c), workflowId, accepted);
      && out.update == DemoUpdate(workflowId, SaveProjection(c))
      && !out.submitted && !out.failed
      && out.workflow == Some(TestWorkflow(condition))
  {
  }

  /**
   A backend document equal to the sample, loaded and converted for saving
   outside demo mode, keeps one map entry per node, in document order.
   */
  lemma TestWorkflowSaveUnchanged(condition: string, selected: seq<Node>)
    ensures var m := NodeMap(SaveProjection(Load(Some(TestWorkflow(condition)), Canvas([], [], selected))).nodes);
      && |m| == 4
      && forall i :: 0 <= i < 4 ==> RoundTrip.ExportedAfterImport(TestNodes(condition)[i].1, m[i])
  {
    TestWorkflowKeysDistinct(condition);
    TestWorkflowImports(condition, selected);
    RoundTrip.ExportAfterImport(TestNodes(condition), TestEdges, selected);
  }

  /**
   The payment parser's entry after that conversion: its timeout of 10 comes back
   as 1, its activity name as `activity_activity`, and its params nested
   under a second `params`.
   */
  lemma TestPaymentSaved(condition: string, selected: seq<Node>)
    ensures var m := NodeMap(SaveProjection(Load(Some(TestWorkflow(condition)), Canvas([], [], selected))).nodes);
      && |m| == 4
      && m[2].0 == NodeKey.DeriveKey(PaymentId)
      && PaymentNode.startToCloseTimeoutInMinutes == Num(10)
      && m[2].1.startToCloseTimeoutInMinutes == Num(1)
      && m[2].1.activityName == Str("activity_activity")
      && m[2].1.nodeParams == Obj([("params", Obj([("params", PaymentParams)]))])
  {
    TestWorkflowSaveUnchanged(condition, selected);
    var m := NodeMap(SaveProjection(Load(Some(TestWorkflow(condition)), Canvas([], [], selected))).nodes);
    assert TestNodes(condition)[2].1 == PaymentNode;
    PaymentEntry(m[2]);
  }

  /** Any entry a conversion can make of the payment parser. */
  lemma PaymentEntry(e: (string, ApiNode))
    requires RoundTrip.ExportedAfterImport(PaymentNode, e)
    ensures e.1.startToCloseTimeoutInMinutes == Num(1)
    ensures e.1.activityName == Str("activity_activity")
    ensures e.1.nodeParams == Obj([("params", Obj([("params", PaymentParams)]))])
  {
    assert EditorType(PaymentNode.nodeType) == ActivityType;
    ActivityNameOfActivity();
  }

  /** The activity name a conversion gives every activity node. */
  lemma ActivityNameOfActivity()
    ensures ActivityType + "_activity" == "activity_activity"
  {
  }

  /** The controller keeps its backend type through that conversion. */
  lemma TestControllerSaved(condition: string, selected: seq<Node>)
    ensures var m := NodeMap(SaveProjection(Load(Some(TestWorkflow(condition)), Canvas([], [], selected))).nodes);
      |m| == 4 && m[3].1.nodeType == Str("Controller")
  {
    TestWorkflowSaveUnchanged(condition, selected);
    var m := NodeMap(SaveProjection(Load(Some(TestWorkflow(condition)), Canvas([], [], selected))).nodes);
    assert TestNodes(condition)[3].1 == ControllerNode(condition);
    assert RoundTrip.ExportedAfterImport(ControllerNode(condition), m[3]);
  }

  /** The alternative sample loads as a trigger feeding one activity. */
  lemma AlternativeWorkflowLoads()
    ensures var c := Load(Some(AlternativeTestWorkflow), Empty);
      && |c.nodes| == 2 && |c.edges| == 1
      && c.nodes[0].kind == TriggerType && c.nodes[0].position == Position(50, 100)
      && c.nodes[1].kind == ActivityType && c.nodes[1].position == Position(650, 220)
      && c.edges[0] == Edge("edge1", "simple-email-trigger", "process-email-activity", Some("edge1"))
      && IsValidConnection(c.nodes, Connection(c.edges[0].source, c.edges[0].target))
  {
    var c := Load(Some(AlternativeTestWorkflow), Empty);
    assert !IsTriggerId(c.nodes, "process-email-activity");
  }
}
