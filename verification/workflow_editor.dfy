/**
 The workflow builder's editor state and its event handlers: the list of
 workflow summaries, the workflow open in the designer, the node store,
 the single selection, the template being dragged and the active view.
 Clock readings (`Date.now()`, ISO timestamps) and the canvas origin from
 `getBoundingClientRect` arrive as parameters.
 */
module WorkflowEditor {
  import opened WorkflowNodes
  import Seqs

  datatype Option<T> = None | Some(value: T)

  datatype View = ListView | DesignerView | MonitorView

  datatype Status = Active | Draft

  datatype Summary = Summary(id: string, name: string, status: Status, lastRun: string)

  /** What the Save button hands to the (unmodelled) persistence layer. */
  datatype Snapshot = Snapshot(id: string, name: string, nodes: seq<Node>, version: string, createdAt: string)

  datatype Editor = Editor(
    workflows: seq<Summary>,
    current: Option<Summary>,
    nodes: seq<Node>,
    selected: Option<NodeId>,
    view: View,
    dragging: Option<Template>)

  const NewWorkflowName: string := "New Workflow"
  const NeverRun: string := "Never"
  const SnapshotVersion: string := "1.0"

  /** A drop puts the node's top-left corner this far up and left of the pointer. */
  const DropOffsetX: int := 100
  const DropOffsetY: int := 50

  /** The state on first render: two sample workflows, list view, nothing else. */
  const Initial: Editor := Editor(
    [Summary("1", "Email Notification Workflow", Active, "2 hours ago"),
     Summary("2", "Data Processing Pipeline", Draft, "Never")],
    None, [], None, ListView, None)

  // ---------------------------------------------------------------- workflow list

  /** `createNewWorkflow`: appends a fresh draft summary, opens it in the
      designer on an empty canvas; the selection and drag state are kept. */
  function CreateWorkflow(e: Editor, id: string): (r: Editor)
    ensures |r.workflows| == |e.workflows| + 1
    ensures r.workflows[..|e.workflows|] == e.workflows
    ensures r.workflows[|e.workflows|] == Summary(id, NewWorkflowName, Draft, NeverRun)
    ensures r.current == Some(r.workflows[|e.workflows|])
    ensures r.nodes == [] && r.view == DesignerView
    ensures r.selected == e.selected && r.dragging == e.dragging
  {
    var w := Summary(id, NewWorkflowName, Draft, NeverRun);
    e.(workflows := e.workflows + [w], current := Some(w), nodes := [], view := DesignerView)
  }

  /** The "Edit" button of the `k`-th listed workflow: opens it in the
      designer; the canvas keeps whatever nodes it held. */
  function EditWorkflow(e: Editor, k: nat): (r: Editor)
    requires k < |e.workflows|
    ensures r.current == Some(e.workflows[k]) && r.view == DesignerView
    ensures r == e.(current := r.current, view := r.view)
  {
    e.(current := Some(e.workflows[k]), view := DesignerView)
  }

  /** Typing in the workflow-name field renames the open workflow only; the
      summary in the list keeps its old name. */
  function RenameWorkflow(e: Editor, name: string): (r: Editor)
    requires e.current.Some?
    ensures r.current.Some? && r.current.value.name == name
    ensures r.current.value.(name := e.current.value.name) == e.current.value
    ensures r == e.(current := r.current)
  {
    e.(current := Some(e.current.value.(name := name)))
  }

  /** `saveWorkflow`: a snapshot of the open workflow and the canvas,
      stamped with the supplied time; the editor state is not touched. */
  function SaveWorkflow(e: Editor, createdAt: string): (s: Snapshot)
    requires e.current.Some?
    ensures s.id == e.current.value.id && s.name == e.current.value.name
    ensures s.nodes == e.nodes
    ensures s.version == SnapshotVersion && s.createdAt == createdAt
  {
    Snapshot(e.current.value.id, e.current.value.name, e.nodes, SnapshotVersion, createdAt)
  }

  // ---------------------------------------------------------------- canvas

  /** `deleteNode(id)`: removes every node carrying `id`; the selection is
      cleared when it is `id` and kept otherwise. */
  function DeleteNode(e: Editor, id: NodeId): (r: Editor)
    ensures r.nodes == DeleteNodes(e.nodes, id)
    ensures r.selected.None? <==> (e.selected.None? || e.selected == Some(id))
    ensures r.selected.Some? ==> r.selected == e.selected
    ensures r == e.(nodes := r.nodes, selected := r.selected)
  {
    e.(nodes := DeleteNodes(e.nodes, id), selected := if e.selected == Some(id) then None else e.selected)
  }

  /** `handleCanvasDrop`: with a template in hand, the pointer position is
      made canvas-local, shifted by the drop offset, and one node is appended
      there; the drag state is cleared. With nothing in hand it is ignored. */
  function Drop(e: Editor, clientX: int, clientY: int, left: int, top: int, id: NodeId): (r: Editor)
    ensures e.dragging.None? ==> r == e
    ensures e.dragging.Some? ==>
      && r == e.(nodes := r.nodes, dragging := None)
      && |r.nodes| == |e.nodes| + 1
      && r.nodes[..|e.nodes|] == e.nodes
      && r.nodes[|e.nodes|] == NewNode(e.dragging.value, clientX - left - DropOffsetX, clientY - top - DropOffsetY, id)
  {
    match e.dragging
    case None => e
    case Some(t) =>
      e.(nodes := AddNode(e.nodes, t, clientX - left - DropOffsetX, clientY - top - DropOffsetY, id), dragging := None)
  }

  // ---------------------------------------------------------------- events

  /** One user action. Node events name the `k`-th rendered node; template
      events name the `t`-th palette entry. */
  datatype Event =
    | NewWorkflowClicked(newId: string)
    | EditClicked(k: nat)
    | ListTabClicked
    | MonitorTabClicked
    | WorkflowNameTyped(name: string)
    | SaveClicked(createdAt: string)
    | TemplateDragStarted(t: nat)
    | TemplateDragEnded
    | CanvasDropped(clientX: int, clientY: int, canvasLeft: int, canvasTop: int, newId: NodeId)
    | CanvasClicked
    | NodeClicked(k: nat)
    | NodeNameTyped(k: nat, name: string)
    | NodeNameFieldClicked(k: nat)
    | NodeDeleteClicked(k: nat)
    | NodeSettingsClicked(k: nat)

  /** The designer (palette, toolbar and canvas) is on screen. */
  predicate InDesigner(e: Editor)
  {
    e.view == DesignerView && e.current.Some?
  }

  /** The control the event comes from is on screen. */
  predicate Enabled(e: Editor, ev: Event)
  {
    match ev
    case NewWorkflowClicked(_) => e.view == ListView
    case EditClicked(k) => e.view == ListView && k < |e.workflows|
    case ListTabClicked => true
    case MonitorTabClicked => true
    case TemplateDragStarted(t) => InDesigner(e) && t < |NodeTemplates|
    case NodeClicked(k) => InDesigner(e) && k < |e.nodes|
    case NodeNameTyped(k, _) => InDesigner(e) && k < |e.nodes|
    case NodeNameFieldClicked(k) => InDesigner(e) && k < |e.nodes|
    case NodeDeleteClicked(k) => InDesigner(e) && k < |e.nodes|
    case NodeSettingsClicked(k) => InDesigner(e) && k < |e.nodes|
    case _ => InDesigner(e)
  }

  datatype Outcome = Outcome(editor: Editor, saved: Option<Snapshot>)

  /** The handler each event reaches. Clicks inside a node stop at the node:
      the name field and the settings button change nothing, the delete
      button deletes, anywhere else in the node selects it, and only a click
      on the bare canvas clears the selection. */
  function Step(e: Editor, ev: Event): (o: Outcome)
    requires Enabled(e, ev)
    ensures o.saved.Some? <==> ev.SaveClicked?
    ensures !ev.NewWorkflowClicked? ==> o.editor.workflows == e.workflows
  {
    match ev
    case NewWorkflowClicked(id) => Outcome(CreateWorkflow(e, id), None)
    case EditClicked(k) => Outcome(EditWorkflow(e, k), None)
    case ListTabClicked => Outcome(e.(view := ListView), None)
    case MonitorTabClicked => Outcome(e.(view := MonitorView), None)
    case WorkflowNameTyped(name) => Outcome(RenameWorkflow(e, name), None)
    case SaveClicked(at) => Outcome(e, Some(SaveWorkflow(e, at)))
    case TemplateDragStarted(t) => Outcome(e.(dragging := Some(NodeTemplates[t])), None)
    case TemplateDragEnded => Outcome(e.(dragging := None), None)
    case CanvasDropped(cx, cy, left, top, id) => Outcome(Drop(e, cx, cy, left, top, id), None)
    case CanvasClicked => Outcome(e.(selected := None), None)
    case NodeClicked(k) => Outcome(e.(selected := Some(e.nodes[k].id)), None)
    case NodeNameTyped(k, name) => Outcome(e.(nodes := UpdateNodeName(e.nodes, e.nodes[k].id, name)), None)
    case NodeNameFieldClicked(_) => Outcome(e, None)
    case NodeDeleteClicked(k) => Outcome(DeleteNode(e, e.nodes[k].id), None)
    case NodeSettingsClicked(_) => Outcome(e, None)
  }

  /** The editor after a sequence of events; an event whose control is not
      on screen cannot happen and is skipped. */
  function Run(e: Editor, evs: seq<Event>): Editor
    decreases |evs|
  {
    if |evs| == 0 then e
    else Run(if Enabled(e, evs[0]) then Step(e, evs[0]).editor else e, evs[1..])
  }

  // ---------------------------------------------------------------- properties

  /** Clicking node `i` and then node `j` leaves exactly node `j`'s id selected. */
  lemma SelectionIsExclusive(e: Editor, i: nat, j: nat)
    requires InDesigner(e) && i < |e.nodes| && j < |e.nodes|
    ensures var e1 := Step(e, NodeClicked(i)).editor;
      Enabled(e1, NodeClicked(j)) && Step(e1, NodeClicked(j)).editor.selected == Some(e.nodes[j].id)
  {
  }

  /** Clicks on a node's name field or settings button stop at the control:
      nothing changes, the selection included. A click on the bare canvas
      clears the selection and changes nothing else. */
  lemma NodeLocalClicksChangeNothing(e: Editor, k: nat)
    requires InDesigner(e) && k < |e.nodes|
    ensures Step(e, NodeNameFieldClicked(k)).editor == e
    ensures Step(e, NodeSettingsClicked(k)).editor == e
    ensures Step(e, CanvasClicked).editor == e.(selected := None)
  {
  }

  /** The Workflows and Monitor tabs only switch the view: the canvas, the
      selection, the drag state and the open workflow all survive. */
  lemma TabsOnlySwitchView(e: Editor)
    ensures Step(e, ListTabClicked).editor == e.(view := ListView)
    ensures Step(e, MonitorTabClicked).editor == e.(view := MonitorView)
  {
  }

  /** Clicking a node selects it and changes nothing else. */
  lemma NodeClickOnlySelects(e: Editor, k: nat)
    requires InDesigner(e) && k < |e.nodes|
    ensures Step(e, NodeClicked(k)).editor == e.(selected := Some(e.nodes[k].id))
  {
  }

  /** Typing in a node's name field renames that node (and any node sharing
      its id) and changes nothing else. */
  lemma NodeNameTypedOnlyRenames(e: Editor, k: nat, name: string)
    requires InDesigner(e) && k < |e.nodes|
    ensures var r := Step(e, NodeNameTyped(k, name)).editor;
      && r == e.(nodes := UpdateNodeName(e.nodes, e.nodes[k].id, name))
      && |r.nodes| == |e.nodes|
      && r.nodes[k] == e.nodes[k].(name := name)
  {
  }

  /** Drag start records the template and drag end forgets it; neither
      places a node. */
  lemma DragWithoutDropPlacesNothing(e: Editor, t: nat)
    requires InDesigner(e) && t < |NodeTemplates|
    ensures var e1 := Step(e, TemplateDragStarted(t)).editor;
      && e1.dragging == Some(NodeTemplates[t]) && e1.nodes == e.nodes
      && Enabled(e1, TemplateDragEnded)
      && Step(e1, TemplateDragEnded).editor == e.(dragging := None)
  {
  }

  /** Drag start followed by a drop places exactly one node, stamped from
      the dragged template at the offset pointer position, and ends the drag. */
  lemma DragThenDropPlacesOneNode(e: Editor, t: nat, cx: int, cy: int, left: int, top: int, id: NodeId)
    requires InDesigner(e) && t < |NodeTemplates|
    ensures var e1 := Step(e, TemplateDragStarted(t)).editor;
      Enabled(e1, CanvasDropped(cx, cy, left, top, id)) &&
      var e2 := Step(e1, CanvasDropped(cx, cy, left, top, id)).editor;
      && |e2.nodes| == |e.nodes| + 1
      && e2.nodes[..|e.nodes|] == e.nodes
      && e2.nodes[|e.nodes|].kind == NodeTemplates[t].kind
      && e2.nodes[|e.nodes|].caption == NodeTemplates[t].caption
      && e2.nodes[|e.nodes|].x == OrDefault(cx - left - DropOffsetX)
      && e2.nodes[|e.nodes|].y == OrDefault(cy - top - DropOffsetY)
      && e2.dragging.None?
      && e2.selected == e.selected
  {
  }

  /** The only event that can add a node is a drop while a template is in hand. */
  lemma NodesGrowOnlyOnDrop(e: Editor, ev: Event)
    requires Enabled(e, ev)
    requires |Step(e, ev).editor.nodes| > |e.nodes|
    ensures ev.CanvasDropped? && e.dragging.Some?
  {
  }

  /** Deleting the same node id twice is the same as deleting it once. */
  lemma DeleteNodeIdempotent(e: Editor, id: NodeId)
    ensures DeleteNode(DeleteNode(e, id), id) == DeleteNode(e, id)
  {
    DeleteNodesIdempotent(e.nodes, id);
  }

  /** Two "Create Workflow" clicks with different clock readings append two
      distinct drafts named "New Workflow", in click order. */
  lemma CreateTwice(e: Editor, id1: string, id2: string)
    requires id1 != id2
    ensures var r := CreateWorkflow(CreateWorkflow(e, id1), id2);
      && |r.workflows| == |e.workflows| + 2
      && r.workflows[|e.workflows|] == Summary(id1, NewWorkflowName, Draft, NeverRun)
      && r.workflows[|e.workflows| + 1] == Summary(id2, NewWorkflowName, Draft, NeverRun)
      && r.workflows[|e.workflows|] != r.workflows[|e.workflows| + 1]
  {
    var e1 := CreateWorkflow(e, id1);
    assert e1.workflows[|e.workflows|] == Summary(id1, NewWorkflowName, Draft, NeverRun);
  }

  /** Save only reads: the editor, nodes and workflow list included, is left
      as it was, and the snapshot records the open workflow and the canvas. */
  lemma SaveLeavesEditorUnchanged(e: Editor, at: string)
    requires InDesigner(e)
    ensures var o := Step(e, SaveClicked(at));
      && o.editor == e
      && o.saved == Some(Snapshot(e.current.value.id, e.current.value.name, e.nodes, SnapshotVersion, at))
  {
  }

  /** The selection names a node that is on the canvas, if it names anything. */
  predicate SelectionValid(e: Editor)
  {
    e.selected.Some? ==> exists k | 0 <= k < |e.nodes| :: e.nodes[k].id == e.selected.value
  }

  /** Every event except "Create Workflow" keeps the selection valid. */
  lemma StepKeepsSelectionValid(e: Editor, ev: Event)
    requires Enabled(e, ev) && SelectionValid(e)
    requires !ev.NewWorkflowClicked?
    ensures SelectionValid(Step(e, ev).editor)
  {
    var r := Step(e, ev).editor;
    if r.selected.Some? {
      match ev
      case NodeClicked(k) =>
        assert r.nodes[k].id == r.selected.value;
      case NodeNameTyped(k, name) =>
        var i :| 0 <= i < |e.nodes| && e.nodes[i].id == e.selected.value;
        assert r.nodes[i].id == r.selected.value;
      case NodeDeleteClicked(k) =>
        var i :| 0 <= i < |e.nodes| && e.nodes[i].id == e.selected.value;
        assert e.nodes[i] in r.nodes;
        var j :| 0 <= j < |r.nodes| && r.nodes[j] == e.nodes[i];
        assert r.nodes[j].id == r.selected.value;
      case CanvasDropped(cx, cy, left, top, id) =>
        var i :| 0 <= i < |e.nodes| && e.nodes[i].id == e.selected.value;
        if e.dragging.Some? {
          assert r.nodes[i] == e.nodes[i];
        }
      case _ =>
    }
  }

  /** Open a new workflow, drop the first template on it, select the node,
      go back to the list and create another workflow. */
  const StaleSelectionRun: seq<Event> := [
    NewWorkflowClicked("a"), TemplateDragStarted(0), CanvasDropped(300, 200, 0, 0, "n1"),
    NodeClicked(0), ListTabClicked, NewWorkflowClicked("b")]

  /** "Create Workflow" empties the canvas without clearing the selection, so
      a run from the first render can end with a node selected that is no
      longer on the canvas. */
  lemma CreateWorkflowLeavesStaleSelection()
    ensures var r := Run(Initial, StaleSelectionRun);
      r.selected == Some("n1") && r.nodes == [] && !SelectionValid(r)
  {
    var evs := StaleSelectionRun;
    assert Enabled(Initial, evs[0]);
    var e1 := Step(Initial, evs[0]).editor;
    assert evs[1..][0] == evs[1] && evs[1..][1..] == evs[2..];
    assert Enabled(e1, evs[1]);
    var e2 := Step(e1, evs[1]).editor;
    assert evs[2..][0] == evs[2] && evs[2..][1..] == evs[3..];
    assert Enabled(e2, evs[2]);
    var e3 := Step(e2, evs[2]).editor;
    assert |e3.nodes| == 1 && e3.nodes[0].id == "n1";
    assert evs[3..][0] == evs[3] && evs[3..][1..] == evs[4..];
    assert Enabled(e3, evs[3]);
    var e4 := Step(e3, evs[3]).editor;
    assert e4.selected == Some("n1");
    assert evs[4..][0] == evs[4] && evs[4..][1..] == evs[5..];
    var e5 := Step(e4, evs[4]).editor;
    assert e5.view == ListView && e5.selected == Some("n1");
    assert evs[5..][0] == evs[5] && evs[5..][1..] == [];
    assert Enabled(e5, evs[5]);
    var e6 := Step(e5, evs[5]).editor;
    assert Run(Initial, evs) == Run(e1, evs[1..]) == Run(e2, evs[2..]) == Run(e3, evs[3..]);
    assert Run(e3, evs[3..]) == Run(e4, evs[4..]) == Run(e5, evs[5..]) == Run(e6, []) == e6;
  }

  /** The designer is only ever shown with a workflow open. */
  predicate DesignerHasWorkflow(e: Editor)
  {
    e.view == DesignerView ==> e.current.Some?
  }

  /** From any state where the designer has a workflow open, every run of
      events keeps it so, and no run removes or edits a listed workflow:
      the list only grows at its end. */
  lemma {:induction false} RunInvariants(e: Editor, evs: seq<Event>)
    requires DesignerHasWorkflow(e)
    ensures DesignerHasWorkflow(Run(e, evs))
    ensures e.workflows <= Run(e, evs).workflows
    decreases |evs|
  {
    if |evs| > 0 {
      var e1 := if Enabled(e, evs[0]) then Step(e, evs[0]).editor else e;
      assert e.workflows <= e1.workflows;
      RunInvariants(e1, evs[1..]);
    }
  }

  /** Every reachable state satisfies the invariants: whenever the designer
      view is active a workflow is open, so the designer's extra check for an
      open workflow never hides it. */
  lemma ReachableStatesAreWellFormed(evs: seq<Event>)
    ensures DesignerHasWorkflow(Run(Initial, evs))
    ensures Initial.workflows <= Run(Initial, evs).workflows
  {
    RunInvariants(Initial, evs);
  }
}
