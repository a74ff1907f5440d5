# Workflow canvas: loading, editing and saving a workflow graph

This project models the core of a React workflow editor. A workflow is a
graph of trigger, controller and activity nodes joined by edges. The
editor loads a workflow document from a backend, or from a bundled sample
when the backend cannot be reached. The user edits the graph on a canvas:
they connect handles, drop nodes from a palette, edit a node's data and
delete the selected nodes. Saving converts the graph back into the
backend's document format and submits it.

The model is pure functional Dafny. Each React state update is a function
from one canvas to the next. The JavaScript values the code handles are
modelled explicitly:

- `JsValue` covers truthiness, `a || b`, template-literal text and
  decimal strings.
- `JsObject` models an object as an ordered list of entries. A read finds
  the last entry with the key. A write replaces an entry in place or
  appends one. `Object.assign` and object spread are folds of writes.
  A document's node map is an object, so its keys never repeat
  (`Document.NodeDefinitions`).

Modules:

| file | module | what it holds |
|---|---|---|
| wrappers.dfy | `Wrappers` | `Option` |
| seqs.dfy | `Seqs` | distinctness, element sets, subsequences, `filter` |
| js_value.dfy | `JsValue` | JavaScript values, truthiness, `\|\|`, number-to-text |
| js_object.dfy | `JsObject` | objects as entry lists: get, set, assign, spread |
| editor.dfy | `Editor` | the canvas graph and its editing operations |
| document.dfy | `Document` | the backend document and the editor's own document format |
| import.dfy | `Import` | loading a document onto the canvas |
| node_key.dfy | `NodeKey` | the node-map key derived from a node id |
| export.dfy | `Export` | building the backend document and the save outcome |
| round_trip.dfy | `RoundTrip` | load-then-save and save-then-reload |
| fixtures.dfy | `SampleData`, `Fixtures` | the bundled sample documents and what loading and saving does to them |

The model follows the code as written:

- A derived node key that collides with an earlier one silently
  overwrites it. No duplicate-key error is raised.
- Loading a document checks none of its edges. An edge into a trigger,
  or to an unknown node id, is loaded as is.
- The key is not camel-cased. The `replace(/([A-Z])/g, …)` callback only
  lower-cases a capital at offset 0, so `payment-advice-parsing-node`
  becomes `paymentadviceparsingnodeNode`, not `paymentAdviceParsingNode`.
- A load followed by a save wraps `params` once more under `params`. The
  document's `activityName` becomes `<type>_activity`, and its timeout
  becomes `1`.

## Model

Functions that only compute have no row of their own; the lemmas about them
carry their rows. `NodeKey.DeriveKey` (src/App.js:102-104) is described by
the `NodeKey.DeriveKey…` rows, `Import.LayoutPosition`
(src/components/WorkflowCanvas.js:70-80) by `Import.LayoutSeparatesEntries`,
`Import.ImportApiNode` (src/components/WorkflowCanvas.js:82-92) by
`Import.ImportApiNodeData` and `Import.ImportApiNodes`, and
`Import.ImportDemoNode` (src/components/WorkflowCanvas.js:125-135) by
`Import.DemoNodeDefaults` and `Import.ImportDemoNodes`.

| member | source | states |
|---|---|---|
| Editor.FindNode | src/components/WorkflowCanvas.js:156 | finds nothing exactly when no node has the id; otherwise returns the first node with that id |
| Editor.IsValidConnection | src/components/WorkflowCanvas.js:155-161 | refuses a connection exactly when the first node with the target id is a trigger; unknown targets and self-loops on non-triggers are accepted |
| Editor.ValidConnectionUniqueIds | src/components/WorkflowCanvas.js:155-161 | when node ids are unique: refuses exactly when the target is a trigger node of the canvas |
| Editor.OnConnect | src/components/WorkflowCanvas.js:163-170 | an accepted connection appends one edge with its endpoints and leaves nodes and selection alone; a refused one leaves the canvas unchanged |
| Editor.OnConnectTriggerProtected | src/components/WorkflowCanvas.js:155-170 | on a canvas with unique ids, no connection into a trigger is ever added |
| Editor.OnConnectPreservesNoEdgeIntoTrigger | src/components/WorkflowCanvas.js:155-170 | connecting keeps "no edge ends at a trigger" on a canvas with unique ids |
| Editor.OnConnectAcceptsUnknownTarget | src/components/WorkflowCanvas.js:156-160 | a connection to an id that no node carries is appended, and then an edge dangles |
| Editor.SelectionChange | src/components/WorkflowCanvas.js:219-221 | the selection becomes the reported nodes, or empty when none are reported; the graph is untouched |
| Editor.DeleteSelected | src/components/WorkflowCanvas.js:223-230 | keeps exactly the unselected nodes and exactly the edges with no selected endpoint, in order and with multiplicity; clears the selection |
| Editor.DeleteSelectedDetermined | src/components/WorkflowCanvas.js:223-230 | any order-keeping selection that keeps exactly the unselected nodes and edges with their multiplicity is what the delete leaves, so the contract fixes the result |
| Editor.DeleteSelectedCascade | src/components/WorkflowCanvas.js:224-228 | after a delete, no node has a selected id and no edge touches one |
| Editor.DeleteSelectedKeepsNode | src/components/WorkflowCanvas.js:225 | a node whose id is not selected survives |
| Editor.DeleteSelectedKeepsEdgesClosed | src/components/WorkflowCanvas.js:223-230 | deleting leaves no dangling edge when there was none |
| Editor.DeleteSelectedKeepsNoEdgeIntoTrigger | src/components/WorkflowCanvas.js:223-230 | deleting keeps triggers free of incoming edges |
| Editor.DeleteSelectedKeepsUniqueIds | src/components/WorkflowCanvas.js:225 | deleting keeps node ids unique |
| Editor.UniqueIdsSubsequence | src/components/WorkflowCanvas.js:225 | any order-preserving sublist of nodes with unique ids has unique ids |
| JsObject.Spread | src/components/WorkflowCanvas.js:41-44 | `{...a, ...b}` has the keys of both; a key of `b` reads its value in `b`, any other key reads its value in `a`; no key repeats |
| Editor.UpdateOne | src/components/WorkflowCanvas.js:37-46 | a node with the id gets data `{...data, ...updates}`: its keys are the union, updated fields win, the others are kept; any other node is unchanged |
| Editor.UpdateNode | src/components/WorkflowCanvas.js:35-49 | every node with the id is merged like that; ids, types, positions, order, other nodes, edges and selection are unchanged |
| Editor.UpdateNodePreservesInvariants | src/components/WorkflowCanvas.js:35-49 | a data update keeps unique ids, closed edges and "no edge into a trigger" |
| Editor.OnDrop | src/components/WorkflowCanvas.js:186-217 | no payload leaves the canvas unchanged; a payload appends a node with id `<nodeType>-<now>`, that type, the drop position, the label as name, the description and empty params |
| Editor.OnDropKeepsEdgesClosed | src/components/WorkflowCanvas.js:204-216 | a drop never makes an edge dangle |
| Editor.OnDropUniqueIds | src/components/WorkflowCanvas.js:204-216 | on a canvas with unique ids, a drop keeps them unique exactly when no node already has the generated id |
| Editor.DropIdsDiffer | src/components/WorkflowCanvas.js:205 | ids generated for one node type at different times differ |
| Editor.OnDropTwiceUniqueIds | src/components/WorkflowCanvas.js:204-216 | two drops of one type onto a canvas where neither id is taken keep ids unique exactly when they happen at different times |
| Editor.OnDropKeepsNoEdgeIntoTrigger | src/components/WorkflowCanvas.js:204-216 | dropping a non-trigger node keeps triggers free of incoming edges |
| Editor.SaveProjection | src/components/WorkflowCanvas.js:232-249 | one saved node per canvas node and one saved edge per canvas edge, in order; `name`, `description` and `params` are lifted out of the data, and the data is kept whole |
| Import.EditorType | src/components/WorkflowCanvas.js:64-68 | `Trigger` gives trigger, `Controller` gives controller, and every other value gives activity (each an if-and-only-if) |
| Import.LayoutSeparatesEntries | src/components/WorkflowCanvas.js:70-80 | each known type has its own column; y grows with the entry index; no two entries share a position |
| Import.ImportApiNodeData | src/components/WorkflowCanvas.js:86-91 | an imported node's data has exactly `name`, `description`, `params`; `params` is `nodeParams` or `{}`; there is no `activityName` |
| Import.ImportOneNodePerKey | src/components/WorkflowCanvas.js:62-63 | a document's node map, whose keys never repeat, loads as one node per key; node `i` is the definition the `i`-th key reads |
| Import.ImportApiNodes | src/components/WorkflowCanvas.js:62-93 | one node per document entry, in entry order; the id is `nodeId`, the type comes from `nodeType`, the position from the type and the entry index |
| Import.ImportApiEdges | src/components/WorkflowCanvas.js:96-119 | one edge per document edge, in order, with the same endpoints and labelled with its name; the id is the name, or `edge-<index>` when the name is missing or empty |
| Import.ImportDemoNodes | src/components/WorkflowCanvas.js:125-135 | one node per editor-format node, in order |
| Import.DemoNodeDefaults | src/components/WorkflowCanvas.js:125-135 | the defaults of the editor format: a missing or empty id gives `node-<index>`, a missing or empty type gives activity, a missing position `(100 + 200·index, 100)`, a falsy description `""` and falsy params `{}`; a present id, type, position, truthy description or truthy params is kept |
| Import.ImportDemoEdges | src/components/WorkflowCanvas.js:137-143 | a missing edge list gives no edges; otherwise one edge per entry, with id defaulting to `edge-<index>` |
| Import.Load | src/components/WorkflowCanvas.js:52-152 | no workflow leaves the canvas alone; `definition.nodes` selects the backend format (edges only when `definition.edges` is present); otherwise `nodes` selects the editor format; otherwise the canvas is emptied; the selection is kept |
| Import.LoadIgnoresNodeKeys | src/components/WorkflowCanvas.js:62-63 | node maps whose `Object.entries` sequences carry the same definitions in the same order load identically: the key itself is never read |
| Import.ImportUniqueIds | src/components/WorkflowCanvas.js:82-83 | loaded ids are unique exactly when the document's `nodeId`s are |
| Import.ImportNodeLookup | src/components/WorkflowCanvas.js:63-93 | the canvas has a node, or a trigger, with an id exactly when the document has that `nodeId`, or a `Trigger` with it |
| Import.ImportEdgesClosed | src/components/WorkflowCanvas.js:96-119 | the loaded edges all join loaded nodes exactly when every document edge names `nodeId`s of the document |
| Import.ImportNoEdgeIntoTrigger | src/components/WorkflowCanvas.js:96-119 | no loaded edge enters a trigger exactly when no document edge targets a `Trigger` |
| Import.ImportKeepsEdgeIntoTrigger | src/components/WorkflowCanvas.js:96-119 | a document with an edge into a trigger loads that edge, although connecting the same pair is refused |
| NodeKey.StripFromIsFilter | src/App.js:102 | removing hyphens is filtering out `-` |
| NodeKey.StripHyphensFacts | src/App.js:102 | hyphen removal leaves no `-`, keeps every other character with its multiplicity and in order, and is the identity on hyphen-free ids |
| NodeKey.DeriveKeyShape | src/App.js:102-104 | the key is the stripped id plus `Node`: no hyphens; a capital first character becomes its lower-case letter, any other first character is kept; every later character is unchanged |
| NodeKey.DeriveKeyLowerBody | src/App.js:102-104 | an id with no capitals gives a key with no capitals before the `Node` suffix |
| NodeKey.DeriveKeyMissesCamelCase | src/App.js:101-104 | such an id never gives a key with a capital before its last four characters, so camel-cased keys are not reproduced |
| NodeKey.DeriveKeyFirst | src/App.js:102-104 | a lower-case, non-hyphen first character is the key's first character |
| NodeKey.DeriveKeyCollision | src/App.js:102-104 | two ids share a key exactly when they agree once hyphens are dropped and a leading capital is lowered |
| NodeKey.DeriveKeyNotInjective | src/App.js:102-104 | `a-b`, `ab` and `Ab` all give `abNode` |
| NodeKey.DeriveKeyExample | src/App.js:102-104 | `email-node` gives `emailnodeNode` |
| Export.ApiNodeType | src/App.js:111-112 | trigger gives `Trigger`, controller gives `Controller`, and every other type gives `Activity` (each an if-and-only-if) |
| Export.ExportNode | src/App.js:106-115 | keeps id and name; nests the node's params, or `{}`, under `params`; empty inputs; backend type; `activityName` from the data when truthy, else `<type>_activity`; timeout 1 |
| Export.NodeMap | src/App.js:99-116 | distinct keys; the keys are exactly the nodes' derived keys, enumerated in the order each is first written, so a colliding node keeps the slot of the first node with its key; each key holds the export of the last node with that key |
| JsObject.AssignFirstOrder | src/App.js:106 | assigning entries one by one onto `{}` enumerates the keys in the order of their first assignment |
| Export.NodeMapEntries | src/App.js:99-116 | every entry is the export of a node that no later node shadows, stored under that node's key |
| Export.NodeMapSize | src/App.js:99-116 | at most one entry per node, and exactly one per node if and only if no two keys collide |
| Export.NodeMapInOrder | src/App.js:99-116 | with no collision, entry `i` is node `i`'s key and export |
| Export.NodeMapLosesShadowed | src/App.js:99-116 | with unique ids, a node whose key a later node shares is missing from the map, and the map is smaller than the node list |
| Export.ExportEdges | src/App.js:118-122 | one backend edge per saved edge, in order, with the same endpoints, named by the edge id |
| Export.BuildUpdate | src/App.js:95-137 | the backend format is used exactly outside demo mode with a current `definition`, and carries the node map and the edge list; otherwise the saved workflow is sent as it is; the workflow id is always set |
| Export.SaveWorkflow | src/App.js:89-149 | sent exactly outside demo mode; an error is reported exactly when the server rejects the update; demo mode and rejection leave the workflow unchanged; acceptance replaces only the definition |
| RoundTrip.TypeRoundTrip | src/App.js:111-112 | a canvas type sent out and read back is kept when known, else it becomes activity |
| RoundTrip.ApiTypeRoundTrip | src/components/WorkflowCanvas.js:64-68 | a backend type read in and sent out is kept for `Trigger` and `Controller`, else it becomes `Activity` |
| RoundTrip.ExportImportedNode | src/App.js:106-115 | one document node loaded and saved keeps its id and name, but gains a second `params` level, a `<type>_activity` name and timeout 1 |
| RoundTrip.ImportedKeysDistinct | src/App.js:102-104 | document nodes with distinct derived keys stay distinct after loading and projecting |
| RoundTrip.ExportAfterImport | src/App.js:99-116 | a document loaded and saved without edits gives one entry per node, in order, each as `ExportImportedNode` describes, when keys do not collide |
| RoundTrip.EdgesAfterImport | src/App.js:118-122 | edges loaded and saved keep endpoints; a named edge keeps its name, and an unnamed one is named `edge-<index>` |
| RoundTrip.ImportExportedNode | src/components/WorkflowCanvas.js:82-92 | one saved node sent out and read back keeps id and name, gets a known type and its layout position, and gains a `params` level |
| RoundTrip.ImportAfterExport | src/components/WorkflowCanvas.js:62-119 | a canvas saved and reloaded returns every node in order, as `ImportExportedNode` describes, and every edge with its endpoints, labelled with its id, when keys do not collide |
| RoundTrip.SaveReloadWrapsParams | src/App.js:109 | a saved node exported (App.js:109), read back (WorkflowCanvas.js:89) and projected again has params `{params: <old params>}`, or `{params: {}}` when they were falsy; truthy params therefore never come back equal |
| RoundTrip.SaveThenReload | src/App.js:141-147 | an accepted save from a backend workflow reloads the canvas as the saved canvas exported and read back |
| RoundTrip.SaveInEditorFormatReloadsOriginal | src/App.js:131-147 | a save sent in the editor's format leaves `definition` unset, so the reload shows the workflow's original nodes and edges, not the saved ones |
| RoundTrip.CollidingNodeMap | src/App.js:99-116 | saved nodes `a-b` then `ab` give a one-entry map that holds `ab` |
| RoundTrip.SaveThenReloadLosesCollidingNode | src/App.js:99-147 | after saving and reloading, only the later of two colliding nodes is on the canvas |
| RoundTrip.SaveThenReloadResetsLayout | src/components/WorkflowCanvas.js:70-80 | after a reload every node sits at its layout position, wherever it had been dragged |
| Fixtures.TestWorkflowImports | src/data/testWorkflowData.js:4-59 | the sample is read as a backend document |
| Fixtures.TestWorkflowLoads | src/data/testWorkflowData.js:4-59 | four nodes and three edges in document order, with their types and positions; the trigger sits at y = 250 |
| Fixtures.TestWorkflowUniqueIds | src/data/testWorkflowData.js:10-37 | the loaded sample's ids are unique |
| Fixtures.TestWorkflowEdgesClosed | src/data/testWorkflowData.js:53-57 | every sample edge joins loaded nodes |
| Fixtures.TestWorkflowNoEdgeIntoTrigger | src/data/testWorkflowData.js:53-57 | no sample edge enters the trigger |
| Fixtures.TestWorkflowEdgeNames | src/data/testWorkflowData.js:53-57 | the sample's edges keep their names as ids and labels |
| Fixtures.TestControllerParams | src/data/testWorkflowData.js:38-46 | the controller's params reach the canvas unchanged |
| Fixtures.TestPaymentParams | src/data/testWorkflowData.js:29 | the payment parser's params reach the canvas unchanged |
| Fixtures.TestParamsNameEdges | src/data/testWorkflowData.js:29-44 | the payment parser reads `$edge3.email_id`; the controller reads `edge2` and feeds `edge3` |
| Fixtures.TestEdgeRoles | src/data/testWorkflowData.js:53-57 | `edge3` is exactly the edge into the payment parser and out of the controller; `edge2` is exactly the edge into the controller |
| Fixtures.TestEdgeReferences | src/data/testWorkflowData.js:26-57 | on the loaded canvas, each edge a node's params name is that node's incoming edge (`edge3` for the payment parser, `edge2` for the controller) or the controller's outgoing edge (`edge3`) |
| Fixtures.TestWorkflowEdgesValid | src/data/testWorkflowData.js:53-57 | the connection rule accepts every edge of the loaded sample |
| Fixtures.TestWorkflowKeysDistinct | src/data/testWorkflowData.js:10-37 | the keys derived for the sample's nodes when it is converted for saving are pairwise different |
| Fixtures.KeysMissDocumentKeys | src/App.js:102-104 | a node whose id has no capital is never stored back under a camel-cased document key (one with a capital before its last four characters) |
| Fixtures.TestWorkflowKeysRenamed | src/data/testWorkflowData.js:8-37 | no derived key equals the key the sample document used |
| Fixtures.TestWorkflowSavedLocally | src/App.js:131-148 | with demo mode on, as it always is when the sample is loaded (src/App.js:24-30), a save of the sample builds the editor-format update, sends nothing, reports no error and leaves the workflow unchanged |
| Fixtures.TestWorkflowSaveUnchanged | src/data/testWorkflowData.js:4-59 | a backend document equal to the sample, loaded and converted for saving, gives one entry per node, in order |
| Fixtures.TestPaymentSaved | src/data/testWorkflowData.js:26-34 | in that conversion the payment parser's timeout of 10 becomes 1, its activity name becomes `activity_activity`, and its params are doubly nested |
| Fixtures.TestControllerSaved | src/data/testWorkflowData.js:35-51 | the controller keeps its backend type through that conversion |
| Fixtures.AlternativeWorkflowLoads | src/data/testWorkflowData.js:62-89 | the alternative sample loads as a trigger feeding one activity, and that connection is valid |

## Left out

- Rendering: the JSX, styles, edge label styles, `type: 'smoothstep'` and
  `animated` are presentation only.
- The `onUpdate` callback that the loader stores in each node's data is a
  function value and is not modelled.
- Logging with `console.log` is not modelled.
- `addEdge` comes from the drawing library. Its generated edge id is a
  parameter, and its de-duplication of identical edges is not modelled.
  `Editor.OnConnect` always appends.
- `Date.now()` in `onDrop` is a parameter. The drop position is a
  parameter too, because it comes from the browser event and
  `reactFlowInstance.project`.
- `JSON.parse` failure on a malformed drag payload is not modelled. The
  payload is already decoded, or absent when `getData` returns nothing.
- Numbers are integers. The document's `1.0`, `10.0` and `5.0` are
  integral, and layout arithmetic only multiplies indices. Floating point
  is left out.
- The `dataclassDict` condition text of the sample's controller is a
  parameter of the sample lemmas. The lemmas hold for any text, and the
  sample's own text is `SampleData.ConditionDict`.
- Network calls (`workflowAPI.getWorkflow`, `updateWorkflow`, `getNodes`)
  are not modelled. The server's answer to a save is a boolean parameter
  of `Export.SaveWorkflow`.
- The initial load falls back to the sample when the backend fails. The
  error messages, the success and failure notifications and their timers
  are not modelled.
- The `saving` and `loading` flags are not modelled.
- `exportWorkflow`, which downloads the canvas as a JSON file, is not
  modelled. It is outside the load, edit and save core.
- The node palette, the node components, the error boundary,
  `src/services/api.js` and `src/constants/config.js` are not part of
  this model. The workflow id from the configuration is a parameter.
- The pass-through fields `type` and `position` of a demo-format save
  travel inside `Editor.SavedWorkflow` unchanged. No lemma is stated about
  how the server stores them.
- JavaScript engines enumerate array-index-like keys (`"0"`, `"1"`, …)
  first, in numeric order, and the other keys in insertion order. The
  sequence `Definition.nodes` is the `Object.entries` order itself. In a
  loaded document whose keys look like indices, those entries come first,
  and each node's index and layout position follow that order, not the
  order of the document's text. The ordering rule is not modelled. Keys
  the save derives end in `Node`, never look like an index, and are in
  insertion order.
- Export.SaveWorkflow: node ids are strings, so the case of a document
  entry without `nodeId` is not modelled. Such an entry loads as a node
  whose id is `undefined`. A later save outside demo mode then throws at
  `node.id.replace` (src/App.js:102). The catch (src/App.js:159-166)
  reports a failure although nothing was sent. The promise that an error is
  reported exactly when the server rejects the update holds only for
  string ids.
