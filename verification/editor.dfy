/**
 The editor's graph: the canvas nodes and edges held by the workflow canvas
 component (src/components/WorkflowCanvas.js), and the operations that edit
 them. Every React state updater there is a plain `map`/`filter`/`concat`, so
 each operation is a pure function from one canvas to the next.
 */
module Editor {
  import opened Wrappers
  import opened JsValue
  import JsObject
  import Seqs

  /** The node types the canvas knows; any other string renders as an activity. */
  const TriggerType: string := "trigger"
  const ControllerType: string := "controller"
  const ActivityType: string := "activity"

  datatype Position = Position(x: int, y: int)

  /**
   A canvas node. `data` is the node's data object: `name`, `description`,
   `params`, and whatever `onUpdate` merged into it. (The `onUpdate` callback
   the loader also stores in `data` is a function and is not modelled.)
   */
  datatype Node = Node(id: string, kind: string, position: Position, data: JsObject.Object<Value>)

  /** A canvas edge. `edgeLabel` (the `label` property) is the backend edge name when the edge was imported. */
  datatype Edge = Edge(id: string, source: string, target: string, edgeLabel: Option<string>)

  /** The canvas state: nodes, edges and the current selection of nodes. */
  datatype Canvas = Canvas(nodes: seq<Node>, edges: seq<Edge>, selected: seq<Node>)

  /** A connection the user drags between two handles. */
  datatype Connection = Connection(source: string, target: string)

  /** `data[k]`, `undefined` when absent. */
  function Field(data: JsObject.Object<Value>, k: string): Value {
    match JsObject.Get(data, k)
    case Some(v) => v
    case None => Undefined
  }

  // ---------------------------------------------------------------------------
  // Graph invariants (the code enforces only some of them).

  function NodeIds(nodes: seq<Node>): seq<string> {
    seq(|nodes|, i requires 0 <= i < |nodes| => nodes[i].id)
  }

  /** No two nodes share an id. */
  predicate UniqueIds(nodes: seq<Node>) {
    Seqs.Distinct(NodeIds(nodes))
  }

  predicate HasNode(nodes: seq<Node>, id: string) {
    exists i :: 0 <= i < |nodes| && nodes[i].id == id
  }

  predicate IsTriggerId(nodes: seq<Node>, id: string) {
    exists i :: 0 <= i < |nodes| && nodes[i].id == id && nodes[i].kind == TriggerType
  }

  /** Every edge joins two nodes of the canvas. */
  predicate EdgesClosed(nodes: seq<Node>, edges: seq<Edge>) {
    forall e :: e in edges ==> HasNode(nodes, e.source) && HasNode(nodes, e.target)
  }

  /** No edge ends at a trigger node. */
  predicate NoEdgeIntoTrigger(nodes: seq<Node>, edges: seq<Edge>) {
    forall e :: e in edges ==> !IsTriggerId(nodes, e.target)
  }

  // ---------------------------------------------------------------------------
  // Connecting (WorkflowCanvas.js:155-170)

  /** Index `i` holds the first node with this id. */
  predicate FirstWithId(nodes: seq<Node>, id: string, i: int) {
    && 0 <= i < |nodes|
    && nodes[i].id == id
    && forall j :: 0 <= j < i ==> nodes[j].id != id
  }

  /** `nodes.find(node => node.id === id)`. */
  function FindNode(nodes: seq<Node>, id: string): (r: Option<Node>)
    ensures r.None? <==> !HasNode(nodes, id)
    ensures r.Some? ==> exists i :: FirstWithId(nodes, id, i) && nodes[i] == r.value
    decreases |nodes|
  {
    if nodes == [] then None
    else if nodes[0].id == id then
      assert FirstWithId(nodes, id, 0);
      Some(nodes[0])
    else
      var r := FindNode(nodes[1..], id);
      assert HasNode(nodes, id) <==> HasNode(nodes[1..], id) by {
        if HasNode(nodes, id) {
          var i :| 0 <= i < |nodes| && nodes[i].id == id;
          assert nodes[1..][i - 1].id == id;
        }
        if HasNode(nodes[1..], id) {
          var i :| 0 <= i < |nodes[1..]| && nodes[1..][i].id == id;
          assert nodes[i + 1].id == id;
        }
      }
      if r.Some? then
        var i :| FirstWithId(nodes[1..], id, i) && nodes[1..][i] == r.value;
        assert FirstWithId(nodes, id, i + 1);
        r
      else r
  }

  /**
   `isValidConnection`: a connection is refused exactly when the first node
   carrying the target id is a trigger. A target that names no node, and a
   self-loop on a non-trigger node, are accepted.
   */
  function IsValidConnection(nodes: seq<Node>, conn: Connection): (ok: bool)
    ensures !ok <==> exists i :: FirstWithId(nodes, conn.target, i) && nodes[i].kind == TriggerType
  {
    var target := FindNode(nodes, conn.target);
    if target.Some? && target.value.kind == TriggerType then false else true
  }

  /** With unique ids the rule reads: refused exactly when the target is a trigger node of the canvas. */
  lemma ValidConnectionUniqueIds(nodes: seq<Node>, conn: Connection)
    requires UniqueIds(nodes)
    ensures !IsValidConnection(nodes, conn) <==> IsTriggerId(nodes, conn.target)
  {
    if IsTriggerId(nodes, conn.target) {
      var i :| 0 <= i < |nodes| && nodes[i].id == conn.target && nodes[i].kind == TriggerType;
      forall j | 0 <= j < i ensures nodes[j].id != conn.target {
        assert NodeIds(nodes)[j] != NodeIds(nodes)[i];
      }
      assert FirstWithId(nodes, conn.target, i);
    }
  }

  /**
   `onConnect`: the edge that `addEdge` builds for an accepted connection is
   appended (its id is generated by the drawing library and passed in here);
   a refused connection leaves the canvas as it was.
   */
  function OnConnect(c: Canvas, conn: Connection, edgeId: string): (r: Canvas)
    ensures r.nodes == c.nodes && r.selected == c.selected
    ensures IsValidConnection(c.nodes, conn) ==> r.edges == c.edges + [Edge(edgeId, conn.source, conn.target, None)]
    ensures !IsValidConnection(c.nodes, conn) ==> r == c
  {
    if IsValidConnection(c.nodes, conn) then
      c.(edges := c.edges + [Edge(edgeId, conn.source, conn.target, None)])
    else c
  }

  /** Trigger protection: no connection into a trigger node is ever added, whatever its source and id. */
  lemma OnConnectTriggerProtected(c: Canvas, conn: Connection, edgeId: string)
    requires UniqueIds(c.nodes)
    requires IsTriggerId(c.nodes, conn.target)
    ensures OnConnect(c, conn, edgeId) == c
  {
    ValidConnectionUniqueIds(c.nodes, conn);
  }

  /** Connecting keeps the "no edge into a trigger" invariant of a canvas with unique ids. */
  lemma OnConnectPreservesNoEdgeIntoTrigger(c: Canvas, conn: Connection, edgeId: string)
    requires UniqueIds(c.nodes)
    requires NoEdgeIntoTrigger(c.nodes, c.edges)
    ensures NoEdgeIntoTrigger(c.nodes, OnConnect(c, conn, edgeId).edges)
  {
    ValidConnectionUniqueIds(c.nodes, conn);
    var r := OnConnect(c, conn, edgeId);
    forall e | e in r.edges ensures !IsTriggerId(c.nodes, e.target) {
      if e !in c.edges {
        assert e == Edge(edgeId, conn.source, conn.target, None);
      }
    }
  }

  /** The rule does not keep edges closed: a connection to an id no node carries is accepted. */
  lemma OnConnectAcceptsUnknownTarget(c: Canvas, conn: Connection, edgeId: string)
    requires !HasNode(c.nodes, conn.target)
    ensures OnConnect(c, conn, edgeId).edges == c.edges + [Edge(edgeId, conn.source, conn.target, None)]
    ensures !EdgesClosed(c.nodes, OnConnect(c, conn, edgeId).edges)
  {
    var e := Edge(edgeId, conn.source, conn.target, None);
    assert e in OnConnect(c, conn, edgeId).edges;
  }

  // ---------------------------------------------------------------------------
  // Deleting the selection (WorkflowCanvas.js:219-230)

  /** `onSelectionChange`: the selection becomes the reported nodes, or nothing. */
  function SelectionChange(c: Canvas, nodes: Option<seq<Node>>): (r: Canvas)
    ensures r.nodes == c.nodes && r.edges == c.edges
    ensures nodes.Some? ==> r.selected == nodes.value
    ensures nodes.None? ==> r.selected == []
  {
    c.(selected := if nodes.Some? then nodes.value else [])
  }

  function SelectedIds(c: Canvas): seq<string> {
    NodeIds(c.selected)
  }

  /**
   `deleteSelectedNodes`: keeps, in order, exactly the nodes whose id is not
   selected and exactly the edges with neither endpoint selected (each with
   its full multiplicity), and clears the selection.
   */
  function DeleteSelected(c: Canvas): (r: Canvas)
    ensures r.selected == []
    ensures forall n :: n in r.nodes <==> n in c.nodes && n.id !in SelectedIds(c)
    ensures forall e :: e in r.edges <==> e in c.edges && e.source !in SelectedIds(c) && e.target !in SelectedIds(c)
    ensures Seqs.IsSubsequence(r.nodes, c.nodes) && Seqs.IsSubsequence(r.edges, c.edges)
    ensures forall n: Node :: n.id !in SelectedIds(c) ==> multiset(r.nodes)[n] == multiset(c.nodes)[n]
    ensures forall e: Edge :: e.source !in SelectedIds(c) && e.target !in SelectedIds(c) ==> multiset(r.edges)[e] == multiset(c.edges)[e]
  {
    var ids := SelectedIds(c);
    Canvas(
      Seqs.Filter(c.nodes, (n: Node) => n.id !in ids),
      Seqs.Filter(c.edges, (e: Edge) => e.source !in ids && e.target !in ids),
      [])
  }

  /**
   The contract of `DeleteSelected` determines its result: any order-keeping
   selection of the nodes and edges that keeps exactly the unselected ones,
   each with its full multiplicity, is what the delete leaves.
   */
  lemma DeleteSelectedDetermined(c: Canvas, nodes: seq<Node>, edges: seq<Edge>)
    requires Seqs.IsSubsequence(nodes, c.nodes) && Seqs.IsSubsequence(edges, c.edges)
    requires forall n :: n in nodes ==> n.id !in SelectedIds(c)
    requires forall e :: e in edges ==> e.source !in SelectedIds(c) && e.target !in SelectedIds(c)
    requires forall n: Node :: n.id !in SelectedIds(c) ==> multiset(nodes)[n] == multiset(c.nodes)[n]
    requires forall e: Edge :: e.source !in SelectedIds(c) && e.target !in SelectedIds(c) ==> multiset(edges)[e] == multiset(c.edges)[e]
    ensures DeleteSelected(c) == Canvas(nodes, edges, [])
  {
    var ids := SelectedIds(c);
    Seqs.FilterUnique(nodes, c.nodes, (n: Node) => n.id !in ids);
    Seqs.FilterUnique(edges, c.edges, (e: Edge) => e.source !in ids && e.target !in ids);
  }

  /** Cascade: after a delete no node with a selected id is left and no edge touches one. */
  lemma DeleteSelectedCascade(c: Canvas)
    ensures forall i :: 0 <= i < |DeleteSelected(c).nodes| ==> DeleteSelected(c).nodes[i].id !in SelectedIds(c)
    ensures forall e :: e in DeleteSelected(c).edges ==> e.source !in SelectedIds(c) && e.target !in SelectedIds(c)
  {
    var r := DeleteSelected(c);
    forall i | 0 <= i < |r.nodes| ensures r.nodes[i].id !in SelectedIds(c) {
      assert r.nodes[i] in r.nodes;
    }
  }

  /** Deleting leaves no edge dangling: an edge survives only with both its endpoint nodes. */
  lemma DeleteSelectedKeepsEdgesClosed(c: Canvas)
    requires EdgesClosed(c.nodes, c.edges)
    ensures EdgesClosed(DeleteSelected(c).nodes, DeleteSelected(c).edges)
  {
    var r := DeleteSelected(c);
    forall e | e in r.edges ensures HasNode(r.nodes, e.source) && HasNode(r.nodes, e.target) {
      assert e in c.edges && e.source !in SelectedIds(c) && e.target !in SelectedIds(c);
      DeleteSelectedKeepsNode(c, e.source);
      DeleteSelectedKeepsNode(c, e.target);
    }
  }

  /** A node whose id is not selected survives the delete. */
  lemma DeleteSelectedKeepsNode(c: Canvas, id: string)
    requires HasNode(c.nodes, id) && id !in SelectedIds(c)
    ensures HasNode(DeleteSelected(c).nodes, id)
  {
    var r := DeleteSelected(c);
    var i :| 0 <= i < |c.nodes| && c.nodes[i].id == id;
    assert c.nodes[i] in r.nodes;
    var k :| 0 <= k < |r.nodes| && r.nodes[k] == c.nodes[i];
  }

  /** Deleting keeps triggers free of incoming edges. */
  lemma DeleteSelectedKeepsNoEdgeIntoTrigger(c: Canvas)
    requires NoEdgeIntoTrigger(c.nodes, c.edges)
    ensures NoEdgeIntoTrigger(DeleteSelected(c).nodes, DeleteSelected(c).edges)
  {
    var r := DeleteSelected(c);
    forall e, i | e in r.edges && 0 <= i < |r.nodes| && r.nodes[i].id == e.target
      ensures r.nodes[i].kind != TriggerType
    {
      assert r.nodes[i] in c.nodes;
      var k :| 0 <= k < |c.nodes| && c.nodes[k] == r.nodes[i];
      assert !IsTriggerId(c.nodes, e.target);
    }
  }

  /** Deleting keeps node ids unique. */
  lemma DeleteSelectedKeepsUniqueIds(c: Canvas)
    requires UniqueIds(c.nodes)
    ensures UniqueIds(DeleteSelected(c).nodes)
  {
    UniqueIdsSubsequence(DeleteSelected(c).nodes, c.nodes);
  }

  /** A subsequence of a node list with unique ids has unique ids. */
  lemma {:induction false} UniqueIdsSubsequence(r: seq<Node>, s: seq<Node>)
    requires Seqs.IsSubsequence(r, s)
    requires UniqueIds(s)
    ensures UniqueIds(r)
    decreases |s|
  {
    if r != [] {
      assert UniqueIds(s[1..]) by {
        forall i, j | 0 <= i < j < |s[1..]| ensures NodeIds(s[1..])[i] != NodeIds(s[1..])[j] {
          assert NodeIds(s)[i + 1] != NodeIds(s)[j + 1];
        }
      }
      if r[0] == s[0] {
        UniqueIdsSubsequence(r[1..], s[1..]);
        forall i, j | 0 <= i < j < |r| ensures NodeIds(r)[i] != NodeIds(r)[j] {
          if i == 0 {
            Seqs.SubsequenceMultiset(r[1..], s[1..]);
            assert r[j] == r[1..][j - 1];
            assert r[j] in multiset(s[1..]);
            var k :| 0 <= k < |s[1..]| && s[1..][k] == r[j];
            assert NodeIds(s)[0] != NodeIds(s)[k + 1];
          } else {
            assert NodeIds(r[1..])[i - 1] != NodeIds(r[1..])[j - 1];
          }
        }
      } else {
        UniqueIdsSubsequence(r, s[1..]);
      }
    }
  }

  // ---------------------------------------------------------------------------
  // Editing node data (WorkflowCanvas.js:35-49)

  /** The per-node step of `handleNodeUpdate`: the matching node's data becomes `{...data, ...updates}`. */
  function UpdateOne(n: Node, nodeId: string, updates: JsObject.Object<Value>): (m: Node)
    ensures m.id == n.id && m.kind == n.kind && m.position == n.position
    ensures n.id != nodeId ==> m == n
    ensures n.id == nodeId ==> JsObject.Keys(m.data) == JsObject.Keys(n.data) + JsObject.Keys(updates)
    ensures n.id == nodeId ==> forall k ::
      Field(m.data, k) == if k in JsObject.Keys(updates) then Field(updates, k) else Field(n.data, k)
  {
    if n.id == nodeId then n.(data := JsObject.Spread(n.data, updates)) else n
  }

  /**
   `handleNodeUpdate(nodeId, updates)`: every node carrying `nodeId` gets
   `data = {...data, ...updates}`; ids, types, positions, the order of the
   nodes, the other nodes, the edges and the selection are untouched.
   */
  function UpdateNode(c: Canvas, nodeId: string, updates: JsObject.Object<Value>): (r: Canvas)
    ensures r.edges == c.edges && r.selected == c.selected
    ensures |r.nodes| == |c.nodes|
    ensures forall i :: 0 <= i < |c.nodes| ==>
      && r.nodes[i].id == c.nodes[i].id
      && r.nodes[i].kind == c.nodes[i].kind
      && r.nodes[i].position == c.nodes[i].position
    ensures forall i :: 0 <= i < |c.nodes| && c.nodes[i].id != nodeId ==> r.nodes[i] == c.nodes[i]
    ensures forall i :: 0 <= i < |c.nodes| && c.nodes[i].id == nodeId ==>
      JsObject.Keys(r.nodes[i].data) == JsObject.Keys(c.nodes[i].data) + JsObject.Keys(updates)
    ensures forall i, k :: 0 <= i < |c.nodes| && c.nodes[i].id == nodeId ==>
      Field(r.nodes[i].data, k) == if k in JsObject.Keys(updates) then Field(updates, k) else Field(c.nodes[i].data, k)
  {
    var nodes := seq(|c.nodes|, i requires 0 <= i < |c.nodes| => UpdateOne(c.nodes[i], nodeId, updates));
    assert forall i :: 0 <= i < |c.nodes| ==> nodes[i] == UpdateOne(c.nodes[i], nodeId, updates);
    c.(nodes := nodes)
  }

  /** Editing data keeps every graph invariant (ids and types do not change). */
  lemma UpdateNodePreservesInvariants(c: Canvas, nodeId: string, updates: JsObject.Object<Value>)
    ensures UniqueIds(c.nodes) ==> UniqueIds(UpdateNode(c, nodeId, updates).nodes)
    ensures EdgesClosed(c.nodes, c.edges) ==> EdgesClosed(UpdateNode(c, nodeId, updates).nodes, c.edges)
    ensures NoEdgeIntoTrigger(c.nodes, c.edges) ==> NoEdgeIntoTrigger(UpdateNode(c, nodeId, updates).nodes, c.edges)
  {
    var r := UpdateNode(c, nodeId, updates);
    assert NodeIds(r.nodes) == NodeIds(c.nodes);
    forall id ensures HasNode(r.nodes, id) <==> HasNode(c.nodes, id) {
      if HasNode(c.nodes, id) {
        var i :| 0 <= i < |c.nodes| && c.nodes[i].id == id;
        assert r.nodes[i].id == id;
      }
    }
    forall id ensures IsTriggerId(r.nodes, id) <==> IsTriggerId(c.nodes, id) {
      if IsTriggerId(c.nodes, id) {
        var i :| 0 <= i < |c.nodes| && c.nodes[i].id == id && c.nodes[i].kind == TriggerType;
        assert r.nodes[i].id == id && r.nodes[i].kind == TriggerType;
      }
    }
  }

  // ---------------------------------------------------------------------------
  // Dropping a node from the palette (WorkflowCanvas.js:186-217)

  /** The palette's drag payload `{nodeType, label, description}`; `caption` is its `label`. */
  datatype DropPayload = DropPayload(nodeType: string, caption: string, description: string)

  /**
   `onDrop`: with no payload nothing happens; otherwise a node with id
   `<nodeType>-<now>` (`now` being `Date.now()`) is appended at the drop
   position, named after the label, with empty params. No uniqueness check
   is made.
   */
  function OnDrop(c: Canvas, payload: Option<DropPayload>, position: Position, now: nat): (r: Canvas)
    ensures payload.None? ==> r == c
    ensures payload.Some? ==> |r.nodes| == |c.nodes| + 1 && r.nodes[..|c.nodes|] == c.nodes
    ensures payload.Some? ==> var n := r.nodes[|c.nodes|];
      && n.id == payload.value.nodeType + "-" + NatToString(now)
      && n.kind == payload.value.nodeType
      && n.position == position
      && Field(n.data, "name") == Str(payload.value.caption)
      && Field(n.data, "description") == Str(payload.value.description)
      && Field(n.data, "params") == EmptyObject
    ensures r.edges == c.edges && r.selected == c.selected
  {
    match payload
    case None => c
    case Some(p) =>
      var data := [("name", Str(p.caption)), ("description", Str(p.description)), ("params", EmptyObject)];
      JsObject.GetEntry(data, 0);
      JsObject.GetEntry(data, 1);
      JsObject.GetEntry(data, 2);
      c.(nodes := c.nodes + [Node(p.nodeType + "-" + NatToString(now), p.nodeType, position, data)])
  }

  /** Dropping keeps edges closed: every node of the canvas is still there. */
  lemma OnDropKeepsEdgesClosed(c: Canvas, p: DropPayload, position: Position, now: nat)
    requires EdgesClosed(c.nodes, c.edges)
    ensures var r := OnDrop(c, Some(p), position, now);
      EdgesClosed(r.nodes, r.edges)
  {
    var r := OnDrop(c, Some(p), position, now);
    forall x | HasNode(c.nodes, x) ensures HasNode(r.nodes, x) {
      var i :| 0 <= i < |c.nodes| && c.nodes[i].id == x;
      assert r.nodes[..|c.nodes|][i] == c.nodes[i];
    }
  }

  /** On a canvas with unique ids, a drop keeps them unique exactly when no node already carries the generated id. */
  lemma OnDropUniqueIds(c: Canvas, p: DropPayload, position: Position, now: nat)
    requires UniqueIds(c.nodes)
    ensures var r := OnDrop(c, Some(p), position, now);
      UniqueIds(r.nodes) <==> !HasNode(c.nodes, p.nodeType + "-" + NatToString(now))
  {
    var r := OnDrop(c, Some(p), position, now);
    var id := p.nodeType + "-" + NatToString(now);
    var n := |c.nodes|;
    assert forall i :: 0 <= i < n ==> r.nodes[i] == r.nodes[..n][i];
    if HasNode(c.nodes, id) {
      var i :| 0 <= i < n && c.nodes[i].id == id;
      assert NodeIds(r.nodes)[i] == NodeIds(r.nodes)[n];
    } else {
      forall i, j | 0 <= i < j < |r.nodes| ensures NodeIds(r.nodes)[i] != NodeIds(r.nodes)[j] {
        if j == n {
          assert NodeIds(r.nodes)[i] == c.nodes[i].id;
        } else {
          assert NodeIds(c.nodes)[i] != NodeIds(c.nodes)[j];
        }
      }
    }
  }

  /** Ids generated for one node type at different times differ. */
  lemma DropIdsDiffer(kind: string, now: nat, later: nat)
    requires now != later
    ensures kind + "-" + NatToString(now) != kind + "-" + NatToString(later)
  {
    NatToStringInjective(now, later);
    var prefix := kind + "-";
    assert (prefix + NatToString(now))[|prefix|..] == NatToString(now);
    assert (prefix + NatToString(later))[|prefix|..] == NatToString(later);
  }

  /**
   Two drops of one node type onto a canvas where neither generated id is
   taken: the ids stay unique exactly when the drops happen at different
   times, since the id differs only in the `Date.now()` text.
   */
  lemma OnDropTwiceUniqueIds(c: Canvas, p: DropPayload, position: Position, now: nat, later: nat)
    requires UniqueIds(c.nodes)
    requires !HasNode(c.nodes, p.nodeType + "-" + NatToString(now))
    requires !HasNode(c.nodes, p.nodeType + "-" + NatToString(later))
    ensures UniqueIds(OnDrop(OnDrop(c, Some(p), position, now), Some(p), position, later).nodes) <==> now != later
  {
    var a := OnDrop(c, Some(p), position, now);
    var idLater := p.nodeType + "-" + NatToString(later);
    OnDropUniqueIds(c, p, position, now);
    OnDropUniqueIds(a, p, position, later);
    if now != later {
      DropIdsDiffer(p.nodeType, now, later);
      forall i | 0 <= i < |a.nodes| ensures a.nodes[i].id != idLater {
        if i < |c.nodes| {
          assert a.nodes[i] == a.nodes[..|c.nodes|][i];
        }
      }
    } else {
      assert a.nodes[|c.nodes|].id == idLater;
    }
  }

  /** Dropping a node that is not a trigger keeps triggers free of incoming edges. */
  lemma OnDropKeepsNoEdgeIntoTrigger(c: Canvas, p: DropPayload, position: Position, now: nat)
    requires NoEdgeIntoTrigger(c.nodes, c.edges) && p.nodeType != TriggerType
    ensures var r := OnDrop(c, Some(p), position, now);
      NoEdgeIntoTrigger(r.nodes, r.edges)
  {
    var r := OnDrop(c, Some(p), position, now);
    forall x | IsTriggerId(r.nodes, x) ensures IsTriggerId(c.nodes, x) {
      var i :| 0 <= i < |r.nodes| && r.nodes[i].id == x && r.nodes[i].kind == TriggerType;
      assert i < |c.nodes| && r.nodes[i] == r.nodes[..|c.nodes|][i];
    }
  }

  // ---------------------------------------------------------------------------
  // The save projection (WorkflowCanvas.js:232-249)

  datatype SavedNode = SavedNode(
    id: string, kind: string, name: Value, description: Value, params: Value,
    position: Position, data: JsObject.Object<Value>)

  datatype SavedEdge = SavedEdge(id: string, source: string, target: string, edgeLabel: Option<string>)

  /** The `workflowData` that the canvas hands to its `onSave` callback. */
  datatype SavedWorkflow = SavedWorkflow(nodes: seq<SavedNode>, edges: seq<SavedEdge>)

  function SaveNode(n: Node): SavedNode {
    SavedNode(n.id, n.kind, Field(n.data, "name"), Field(n.data, "description"),
      Field(n.data, "params"), n.position, n.data)
  }

  /**
   `handleSave`: one saved node per canvas node and one saved edge per canvas
   edge, in order; each saved node lifts `name`, `description` and `params`
   out of its data and keeps the data whole.
   */
  function SaveProjection(c: Canvas): (w: SavedWorkflow)
    ensures |w.nodes| == |c.nodes| && |w.edges| == |c.edges|
    ensures forall i :: 0 <= i < |c.nodes| ==>
      && w.nodes[i].id == c.nodes[i].id && w.nodes[i].kind == c.nodes[i].kind
      && w.nodes[i].position == c.nodes[i].position && w.nodes[i].data == c.nodes[i].data
      && w.nodes[i].name == Field(c.nodes[i].data, "name")
      && w.nodes[i].description == Field(c.nodes[i].data, "description")
      && w.nodes[i].params == Field(c.nodes[i].data, "params")
    ensures forall i :: 0 <= i < |c.edges| ==>
      w.edges[i] == SavedEdge(c.edges[i].id, c.edges[i].source, c.edges[i].target, c.edges[i].edgeLabel)
  {
    SavedWorkflow(
      seq(|c.nodes|, i requires 0 <= i < |c.nodes| => SaveNode(c.nodes[i])),
      seq(|c.edges|, i requires 0 <= i < |c.edges| =>
        SavedEdge(c.edges[i].id, c.edges[i].source, c.edges[i].target, c.edges[i].edgeLabel)))
  }
}
