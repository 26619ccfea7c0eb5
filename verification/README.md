# Classroom front-end exercises, modelled in Dafny

This project models the stateful logic of four front-end exercises. Each is
written as immutable records and sequences with pure transition functions,
and the properties are proved about those functions.

- **Workflow automation builder** (`Project/Frontend/src/App.jsx`). The canvas
  editor has a palette of six node templates and an ordered node store. Its
  operations are add, rename and delete. It keeps one selected node id, an
  optional template being dragged, and a list of workflow summaries with
  create, edit, rename and save. Modules: `WorkflowNodes` (templates and the
  node store) and `WorkflowEditor`. `WorkflowEditor` holds the editor state,
  one function per handler, an `Event` type, `Enabled` (which controls are on
  screen), `Step` and `Run`.
- **Course registration form** (`LabMST_Q2/src/App.jsx`), module
  `Registration`. It covers field edits, ordered validation with one error
  message, newest-first rows, delete by id, reset, and the descending row
  numbers in the table.
- **Signup form** (`LabMST_Q4/src/components/Signup.jsx`), module `Signup`.
  It covers four independent checks that produce an error map, and a submit
  that empties the form only when the map is empty.
- **Product filter** (`Experiment_3/assignment3.js`), module `Catalogue`. It
  covers the fixed nine-product catalogue, the category filter with "all",
  and the rendering as cards or as the "No products found." message.

Shared modules:

- `Seqs` holds order-preserving `Filter` (JavaScript `Array.prototype.filter`),
  an independent `Count` and `IsSubsequence`.
- `JsString` holds the ECMAScript white-space class used by both `\s` and
  `trim()`, and `trim()` itself. `!s.trim()` is proved to be equivalent to
  "every character is white space".
- `EmailPatterns` holds the two e-mail regular expressions. Each is stated
  as what a match means: there exist split points that cut the whole string
  (`/^[^\s@]+@[^\s@]+\.[^\s@]+$/`) or some substring of it (`/\S+@\S+\.\S+/`)
  into the pieces the pattern names. Each is then characterised without
  split points.

Clock readings (`Date.now()`, `new Date().toISOString()`) and the canvas
origin (`getBoundingClientRect`) are parameters. `console.log` and `alert`
are left out.

The model follows the workflow builder's code as written:

- Leaving the designer (the Workflows or Monitor tab) does not discard the
  nodes, the selection or the drag state. It only changes the view.
- Node and workflow ids are clock readings and are not unique.
  `WorkflowEditor.CreateTwice` gets distinct summaries only by assuming
  distinct clock readings.
- "Create Workflow" empties the canvas but keeps the selection. So the
  invariant "the selected id names a node on the canvas" is kept by every
  event except that one (`WorkflowEditor.StepKeepsSelectionValid`). A
  six-event run from the first render breaks it: create, drag, drop, select
  the node, go back to the list, create again
  (`WorkflowEditor.CreateWorkflowLeavesStaleSelection`).
- "Edit" on a listed workflow keeps whatever nodes are on the canvas.
  Renaming and saving never touch the workflow list.

## Model

| member | source | states |
|---|---|---|
| `WorkflowNodes.TemplateCatalogue` | Project/Frontend/src/App.jsx:5-12 | The palette has six templates: two triggers, then three actions, then one condition. Their labels are distinct, and "API Call" is an action. |
| `WorkflowNodes.AddNode` | Project/Frontend/src/App.jsx:103-116 | Exactly one node is appended and earlier nodes are unchanged and in order. The new node has the given id and copies kind, label, icon and colour from the template. Its name is "" and its config is empty. A coordinate of 0 becomes 100 and any other coordinate is kept, for x and y independently. |
| `WorkflowNodes.UpdateNodeName` | Project/Frontend/src/App.jsx:118-122 | Renaming keeps the list length. A node with another id is unchanged. Every node with the id, duplicates included, gets the new name with all other fields unchanged. |
| `WorkflowNodes.UpdateMissingIdIsNoOp` | Project/Frontend/src/App.jsx:118-122 | Renaming an id that no node carries leaves the list unchanged. |
| `WorkflowNodes.UpdateKeepsIdentity` | Project/Frontend/src/App.jsx:118-122 | Renaming never changes a node's id, kind, label, position or config. |
| `WorkflowNodes.UpdateLastWriteWins` | Project/Frontend/src/App.jsx:118-122 | Of two renames of the same id, the later one wins. |
| `WorkflowNodes.DeleteNodes` | Project/Frontend/src/App.jsx:124-125 | No node with the id survives and every other node survives. Survivors form a subsequence of the original, so their order is kept. The length drops by the number of nodes that carry the id. |
| `WorkflowNodes.CountWithIdComplement` | Project/Frontend/src/App.jsx:124-125 | Every node either carries the id or passes the delete filter, so the two counts add up to the list length. |
| `WorkflowNodes.DeleteNodesIdempotent` | Project/Frontend/src/App.jsx:124-125 | Deleting an id twice is the same as deleting it once. |
| `WorkflowNodes.DeleteMissingIdIsNoOp` | Project/Frontend/src/App.jsx:124-125 | Deleting an id that no node carries leaves the list unchanged. |
| `WorkflowNodes.DeleteMiddleNode` | Project/Frontend/src/App.jsx:124-125 | With distinct ids, deleting B from [A, B, C] gives [A, C]. |
| `WorkflowEditor.CreateWorkflow` | Project/Frontend/src/App.jsx:78-89 | One summary `{id, "New Workflow", draft, "Never"}` is appended at the end and becomes the current workflow. Nodes become empty and the view becomes the designer. Selection and drag state are kept. |
| `WorkflowEditor.CreateTwice` | Project/Frontend/src/App.jsx:78-89 | Two creates with different clock readings append two distinct drafts, in click order. |
| `WorkflowEditor.EditWorkflow` | Project/Frontend/src/App.jsx:226-229 | "Edit" makes the listed workflow current and shows the designer. Everything else, the nodes included, is unchanged. |
| `WorkflowEditor.RenameWorkflow` | Project/Frontend/src/App.jsx:279-284 | Typing a name changes only the open workflow's name. The list and every other field are unchanged. |
| `WorkflowEditor.SaveWorkflow` | Project/Frontend/src/App.jsx:91-101 | The snapshot carries the current workflow's id and name, the canvas nodes, version "1.0" and the supplied timestamp. |
| `WorkflowEditor.SaveLeavesEditorUnchanged` | Project/Frontend/src/App.jsx:91-101 | Clicking Save leaves the whole editor unchanged, nodes and workflow list included. It yields the snapshot of the open workflow and the canvas. |
| `WorkflowEditor.DeleteNode` | Project/Frontend/src/App.jsx:124-127 | Nodes are filtered as in `DeleteNodes`. The selection is cleared exactly when it was the deleted id, and is otherwise unchanged. Nothing else changes. |
| `WorkflowEditor.DeleteNodeIdempotent` | Project/Frontend/src/App.jsx:124-127 | Deleting a node id twice, selection included, is the same as deleting it once. |
| `WorkflowEditor.Drop` | Project/Frontend/src/App.jsx:129-138 | With no template in hand the editor is unchanged. With one, exactly one node is appended at (clientX − left − 100, clientY − top − 50), subject to the zero fallback. The drag state is cleared and nothing else changes. |
| `WorkflowEditor.Step` | Project/Frontend/src/App.jsx:66-138 | Only the Save button produces a snapshot, and no event except "Create Workflow" changes the workflow list. |
| `WorkflowEditor.SelectionIsExclusive` | Project/Frontend/src/App.jsx:24-27 | Clicking one node and then another leaves exactly the second node's id selected. |
| `WorkflowEditor.NodeLocalClicksChangeNothing` | Project/Frontend/src/App.jsx:34-57 | Clicks on a node's name field or settings button change nothing, the selection included. A click on the bare canvas clears only the selection. |
| `WorkflowEditor.TabsOnlySwitchView` | Project/Frontend/src/App.jsx:163-175 | The Workflows and Monitor tabs change only the view. Nodes, selection, drag state and the open workflow survive. |
| `WorkflowEditor.NodeClickOnlySelects` | Project/Frontend/src/App.jsx:24-27 | Clicking a node selects its id and changes nothing else. |
| `WorkflowEditor.NodeNameTypedOnlyRenames` | Project/Frontend/src/App.jsx:34-41 | Typing in a node's name field renames that node, keeping the list length, and changes nothing else in the editor. |
| `WorkflowEditor.DragWithoutDropPlacesNothing` | Project/Frontend/src/App.jsx:259-261 | Drag start records the template and drag end clears it. Neither places a node. |
| `WorkflowEditor.DragThenDropPlacesOneNode` | Project/Frontend/src/App.jsx:129-138 | Drag start followed by a drop adds exactly one node with the template's kind and label at the offset position. It ends the drag and keeps the selection. |
| `WorkflowEditor.NodesGrowOnlyOnDrop` | Project/Frontend/src/App.jsx:103-138 | The node list grows only on a drop while a template is in hand. |
| `WorkflowEditor.StepKeepsSelectionValid` | Project/Frontend/src/App.jsx:124-127 | Every event except "Create Workflow" keeps the selection naming a node on the canvas, if it names one at all. |
| `WorkflowEditor.CreateWorkflowLeavesStaleSelection` | Project/Frontend/src/App.jsx:78-89 | From the first render, the run create, drag, drop, select the node, Workflows tab, create again ends with the dropped node's id selected on an empty canvas. |
| `WorkflowEditor.RunInvariants` | Project/Frontend/src/App.jsx:245-245 | Starting from a state where the designer has a workflow open, every run of events keeps it that way. The workflow list only grows at its end. |
| `WorkflowEditor.ReachableStatesAreWellFormed` | Project/Frontend/src/App.jsx:67-76 | Every state reachable from the initial one satisfies those invariants, and the two sample workflows stay at the head of the list. So the designer's extra `currentWorkflow` guard never hides it. |
| `Registration.Change` | LabMST_Q2/src/App.jsx:8-11 | The edited field takes the value and the other two fields are unchanged. |
| `Registration.Validate` | LabMST_Q2/src/App.jsx:13-25 | If any field is all white space, the result is "All fields are required.", whatever the e-mail is. Otherwise a non-matching e-mail gives "Please enter a valid email.". Otherwise the form passes with the empty message. |
| `Registration.ValidateAccepts` | LabMST_Q2/src/App.jsx:13-25 | The form passes exactly when the name and course are non-blank and the e-mail matches the anchored pattern. |
| `Registration.Submit` | LabMST_Q2/src/App.jsx:27-33 | An acceptable form is prepended as one row holding the untrimmed values and the supplied id. Older rows follow in order, the form is emptied and the error is cleared. Any other form leaves the rows and the form unchanged. Its error is the required-field message when a field is blank, and the invalid-e-mail message otherwise. |
| `Registration.ValidSubmitScenario` | LabMST_Q2/src/App.jsx:27-33 | Typing "Ann", "a@b.c", "CS" and submitting gives a single row and an empty form. |
| `Registration.BlankCourseScenario` | LabMST_Q2/src/App.jsx:13-17 | A blank course is refused with the required-field message, even with a good e-mail. |
| `Registration.Delete` | LabMST_Q2/src/App.jsx:35-37 | Every row with the id goes and every other row stays, in order. The row count equals the count of rows without the id. Form and error are unchanged. |
| `Registration.DeleteIdempotent` | LabMST_Q2/src/App.jsx:35-37 | Deleting a row id twice is the same as deleting it once. |
| `Registration.Reset` | LabMST_Q2/src/App.jsx:114-120 | Reset empties the form and keeps the rows and the error message. |
| `Registration.RowNumbers` | LabMST_Q2/src/App.jsx:157-163 | There is one number per row, and the row at `idx` shows `rows.length - idx`. |
| `Registration.RowNumbersCountDown` | LabMST_Q2/src/App.jsx:157-163 | The numbers run n, n−1, …, 1 from top to bottom. The newest row shows n, and the set of numbers is exactly 1..n. |
| `Registration.PrependKeepsRowNumbers` | LabMST_Q2/src/App.jsx:157-163 | Prepending a row numbers it n + 1 and leaves every earlier row's number unchanged. |
| `Signup.Change` | LabMST_Q4/src/components/Signup.jsx:13-18 | The edited field takes the value and the other three fields are unchanged. |
| `Signup.Validate` | LabMST_Q4/src/components/Signup.jsx:20-28 | The map fits `Reports`, the field-by-field description: the keys are among the four field names. The name error is present exactly when the name is blank. The e-mail gets at most one message: "required" when blank, "invalid" when no substring matches. The password error is present exactly when the password is shorter than 6. The confirmation error is present exactly when the two passwords differ. |
| `Signup.ReportsDetermineErrors` | LabMST_Q4/src/components/Signup.jsx:20-28 | At most one error map fits the field-by-field description, so `Reports` pins down the result of `validate` completely. |
| `Signup.ValidateAccepts` | LabMST_Q4/src/components/Signup.jsx:20-28 | There are no errors exactly when the name is non-blank, the e-mail contains a match, the password has at least 6 characters and the confirmation equals it. |
| `Signup.ChecksAreIndependent` | LabMST_Q4/src/components/Signup.jsx:20-28 | Each message depends only on its own field. The confirmation check reads only the two passwords. |
| `Signup.SubmitShowsValidate` | LabMST_Q4/src/components/Signup.jsx:30-43 | Submission shows exactly the map `validate` returns, and empties the form exactly when that map is empty. |
| `Signup.PasswordBoundary` | LabMST_Q4/src/components/Signup.jsx:25-25 | Exactly 6 characters passes and 5 does not. |
| `Signup.Submit` | LabMST_Q4/src/components/Signup.jsx:30-43 | The errors shown fit the field-by-field description of the submitted form. The form is emptied when every check passes, and is otherwise unchanged. |
| `Signup.EmptyFormScenario` | LabMST_Q4/src/components/Signup.jsx:30-43 | Submitting the empty form reports name, e-mail (required) and password, but not the confirmation. |
| `Catalogue.CatalogueShape` | Experiment_3/assignment3.js:2-12 | There are nine products with ids 1..9 in order, each in one of four categories. |
| `Catalogue.Filtered` | Experiment_3/assignment3.js:39-47 | "all" yields the whole catalogue in order. Any other value yields the in-order subsequence of products whose category equals it: every result has that category, every such product is present, and the count equals the catalogue's count for it. |
| `Catalogue.FilteredIdempotent` | Experiment_3/assignment3.js:44-44 | Filtering a filtered list again with the same value changes nothing. |
| `Catalogue.Render` | Experiment_3/assignment3.js:19-36 | An empty list renders exactly the "No products found." message. Otherwise there is one card per product, in order, with that product's title and category. |
| `Catalogue.UnknownCategoryShowsMessage` | Experiment_3/assignment3.js:22-25 | A value naming no category selects nothing and shows only the message. |
| `Catalogue.ShowAllRendersEveryProduct` | Experiment_3/assignment3.js:41-42 | "all", like the initial render, shows all nine products as cards. |
| `Catalogue.ElectronicsScenario` | Experiment_3/assignment3.js:44-44 | "electronics" selects products 1, 2 and 7, in that order. |
| `Seqs.Filter` | Experiment_3/assignment3.js:44-44 | `filter` keeps exactly the passing elements as a subsequence, and their number equals the independently defined count. |
| `Seqs.FilterIdempotent` | LabMST_Q2/src/App.jsx:36-36 | Filtering twice with the same predicate equals filtering once. |
| `JsString.LeadingSpaces` | LabMST_Q2/src/App.jsx:14-14 | The forward scan of `trim()` stops at the first non-space position at or after its start, or at the end. Everything it skipped is white space. |
| `JsString.TrailingSpaces` | LabMST_Q2/src/App.jsx:14-14 | The backward scan of `trim()` stops just after the last non-space position before its end, without passing its lower bound. Everything it skipped is white space. |
| `JsString.Trim` | LabMST_Q2/src/App.jsx:14-14 | `trim()` returns an infix of the input whose removed ends are blank. The result neither starts nor ends with white space. |
| `JsString.TrimIsEmptyIffBlank` | LabMST_Q2/src/App.jsx:14-14 | `!s.trim()` holds exactly when every character of `s` is white space. |
| `EmailPatterns.StrictEmailCharacterization` | LabMST_Q2/src/App.jsx:18-19 | The anchored pattern accepts exactly the strings with no white space and a single '@' that is not first. After the '@' there must be a '.' at least two characters on that is not last. |
| `EmailPatterns.StrictEmailNeedsSingleAt` | LabMST_Q2/src/App.jsx:18-19 | An accepted address has exactly one '@' and no white space. |
| `EmailPatterns.StrictEmailHasNoSpace` | LabMST_Q2/src/App.jsx:18-19 | No character of an accepted address is white space. |
| `EmailPatterns.StrictEmailIsNotBlank` | LabMST_Q2/src/App.jsx:14-19 | An address the anchored pattern accepts is never blank, so the required check is subsumed for the e-mail. |
| `EmailPatterns.LooseEmailCharacterization` | LabMST_Q4/src/components/Signup.jsx:24-24 | The unanchored pattern accepts exactly the strings that have a non-space before some '@', then non-space characters, then a '.', then a non-space character. |
| `EmailPatterns.LooseEmailIsNotBlank` | LabMST_Q4/src/components/Signup.jsx:23-24 | A string the unanchored pattern accepts is never blank, so "required" and "invalid" never both apply. |
| `EmailPatterns.StrictImpliesLoose` | LabMST_Q4/src/components/Signup.jsx:24-24 | Every address the registration form accepts is accepted by the signup form. |
| `EmailPatterns.ShortestAddressAccepted` | LabMST_Q2/src/App.jsx:18-19 | "a@b.c" is accepted by both patterns. |
| `EmailPatterns.PatternsDiffer` | LabMST_Q4/src/components/Signup.jsx:24-24 | "a b@c.d" and "a@b@c.d" are accepted by the unanchored pattern and rejected by the anchored one. |

## Left out

- `LabMST_Q4/src/App.jsx` is router and navigation-bar configuration with no logic of its own.
- `Experiment_2/assignment2.js` is DOM class toggling, `localStorage` and `matchMedia`: browser I/O with no state worth modelling.
- JSX rendering, CSS classes and connector-dot markup are not modelled. Icons are kept as an opaque tag copied from template to node.
- The monitor view's hard-coded statistics and sample executions (`Project/Frontend/src/App.jsx:140-145, 338-411`) are constants with no logic.
- `console.log` and `alert` in save and signup have no effect on state and are omitted. `Date.now()`, ISO timestamps and `getBoundingClientRect` are parameters.
- The persistence collaborator that would receive a snapshot is not part of this model. Save only builds the snapshot.
- The "Run" and "Play" buttons have no handlers in the code and are not events.
- Coordinates are integers. JavaScript numbers can also be fractional or `NaN`, and `NaN \|\| 100` is 100 as well, which the model does not cover.
- String length is the number of code points, not UTF-16 code units, so a password with characters outside the Basic Multilingual Plane is measured differently.
- `updateNode` merges an arbitrary patch object. Its only caller passes `{ name }`, so only that patch is modelled.
- React batching, stale closures, re-rendering, `preventDefault` and event propagation are not modelled. Node-local and canvas-background clicks are distinct events, and `Enabled` says which controls are on screen.
- `WorkflowEditor.Step`: its own contract states only the frame facts about snapshots and the workflow list. The effect of each event is stated elsewhere. Workflow and node operations are covered by the handler functions `Step` dispatches to. The inline events are covered by `TabsOnlySwitchView`, `NodeClickOnlySelects`, `NodeNameTypedOnlyRenames`, `NodeLocalClicksChangeNothing`, `DragWithoutDropPlacesNothing` and `SaveLeavesEditorUnchanged`.
