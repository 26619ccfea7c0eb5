/**
 The node store of the workflow builder: the palette of node templates and
 the ordered list of nodes placed on the canvas, with the three operations
 the editor performs on it (add, rename, delete).
 */
module WorkflowNodes {
  import Seqs

  datatype NodeKind = Trigger | Action | Condition

  /** The icon drawn on a template and on the nodes made from it; only its identity matters. */
  datatype Icon = Clock | Zap | Database | Mail | Code | GitBranch

  /** `caption` is the template's `label` (a reserved word in Dafny). */
  datatype Template = Template(kind: NodeKind, caption: string, icon: Icon, color: string)

  /** The palette, in display order. */
  const NodeTemplates: seq<Template> := [
    Template(Trigger, "Schedule Trigger", Clock, "bg-blue-500"),
    Template(Trigger, "API Trigger", Zap, "bg-purple-500"),
    Template(Action, "API Call", Database, "bg-green-500"),
    Template(Action, "Send Email", Mail, "bg-orange-500"),
    Template(Action, "Run Script", Code, "bg-yellow-500"),
    Template(Condition, "If/Else", GitBranch, "bg-pink-500")
  ]

  /** Node ids are the decimal text of a millisecond clock reading; nothing
      makes them unique. */
  type NodeId = string

  datatype Node = Node(
    id: NodeId,
    kind: NodeKind,
    caption: string,
    icon: Icon,
    color: string,
    x: int,
    y: int,
    name: string,
    config: map<string, string>)

  /** Position used for a coordinate that is falsy (`x || 100`); for an
      integer coordinate that is exactly 0. */
  const DefaultCoordinate: int := 100

  function OrDefault(v: int): int
  {
    if v == 0 then DefaultCoordinate else v
  }

  /** The node `addNode(template, x, y)` creates under id `id`. */
  function NewNode(t: Template, x: int, y: int, id: NodeId): Node
  {
    Node(id, t.kind, t.caption, t.icon, t.color, OrDefault(x), OrDefault(y), "", map[])
  }

  /** `addNode`: one node stamped from the template is appended; earlier
      nodes stay as they were, in order. */
  function AddNode(nodes: seq<Node>, t: Template, x: int, y: int, id: NodeId): (r: seq<Node>)
    ensures |r| == |nodes| + 1
    ensures r[..|nodes|] == nodes
    ensures var n := r[|nodes|];
      && n.id == id && n.kind == t.kind && n.caption == t.caption && n.icon == t.icon && n.color == t.color
      && n.name == "" && n.config == map[]
    ensures x != 0 ==> r[|nodes|].x == x
    ensures x == 0 ==> r[|nodes|].x == DefaultCoordinate
    ensures y != 0 ==> r[|nodes|].y == y
    ensures y == 0 ==> r[|nodes|].y == DefaultCoordinate
  {
    nodes + [NewNode(t, x, y, id)]
  }

  /** `updateNode(id, { name })`: every node carrying `id` gets the new name
      and keeps all other fields; every other node is untouched. */
  function UpdateNodeName(nodes: seq<Node>, id: NodeId, name: string): (r: seq<Node>)
    ensures |r| == |nodes|
    ensures forall k | 0 <= k < |nodes| && nodes[k].id != id :: r[k] == nodes[k]
    ensures forall k | 0 <= k < |nodes| && nodes[k].id == id :: r[k] == nodes[k].(name := name)
  {
    seq(|nodes|, k requires 0 <= k < |nodes| =>
      if nodes[k].id == id then nodes[k].(name := name) else nodes[k])
  }

  /** Renaming an id that no node carries leaves the list as it was. */
  lemma UpdateMissingIdIsNoOp(nodes: seq<Node>, id: NodeId, name: string)
    requires forall k | 0 <= k < |nodes| :: nodes[k].id != id
    ensures UpdateNodeName(nodes, id, name) == nodes
  {
  }

  /** Renaming changes no id, kind, template field or position, so the
      node at each index is still the same placed node. */
  lemma UpdateKeepsIdentity(nodes: seq<Node>, id: NodeId, name: string, k: int)
    requires 0 <= k < |nodes|
    ensures var n := UpdateNodeName(nodes, id, name)[k];
      n.id == nodes[k].id && n.kind == nodes[k].kind && n.caption == nodes[k].caption &&
      n.x == nodes[k].x && n.y == nodes[k].y && n.config == nodes[k].config
  {
  }

  /** Two renames of the same id: the later one wins. */
  lemma UpdateLastWriteWins(nodes: seq<Node>, id: NodeId, a: string, b: string)
    ensures UpdateNodeName(UpdateNodeName(nodes, id, a), id, b) == UpdateNodeName(nodes, id, b)
  {
  }

  /** The filter predicate of `deleteNode(id)`. */
  function KeepsId(id: NodeId): Node -> bool
  {
    (n: Node) => n.id != id
  }

  /** Whether a node carries `id`: the complement of `KeepsId(id)`. */
  function HasId(id: NodeId): Node -> bool
  {
    (n: Node) => n.id == id
  }

  /** Number of nodes carrying `id`. */
  function CountWithId(nodes: seq<Node>, id: NodeId): nat
  {
    Seqs.Count(HasId(id), nodes)
  }

  /** Every node either carries `id` or is kept by the filter, never both,
      so the two counts add up to the length of the list. */
  lemma {:induction false} CountWithIdComplement(nodes: seq<Node>, id: NodeId)
    ensures CountWithId(nodes, id) + Seqs.Count(KeepsId(id), nodes) == |nodes|
    decreases |nodes|
  {
    if |nodes| > 0 {
      CountWithIdComplement(nodes[1..], id);
    }
  }

  /** `nodes.filter(node => node.id !== id)`: no node with `id` survives,
      every other node survives, and the survivors keep their order. */
  function DeleteNodes(nodes: seq<Node>, id: NodeId): (r: seq<Node>)
    ensures forall k | 0 <= k < |r| :: r[k].id != id
    ensures forall n | n in nodes && n.id != id :: n in r
    ensures forall n | n in r :: n in nodes
    ensures Seqs.IsSubsequence(r, nodes)
    ensures |r| == |nodes| - CountWithId(nodes, id)
  {
    CountWithIdComplement(nodes, id);
    Seqs.Filter(KeepsId(id), nodes)
  }

  /** Deleting an id a second time changes nothing. */
  lemma DeleteNodesIdempotent(nodes: seq<Node>, id: NodeId)
    ensures DeleteNodes(DeleteNodes(nodes, id), id) == DeleteNodes(nodes, id)
  {
    Seqs.FilterIdempotent(KeepsId(id), nodes);
  }

  /** Deleting an id no node carries leaves the list as it was. */
  lemma DeleteMissingIdIsNoOp(nodes: seq<Node>, id: NodeId)
    requires forall k | 0 <= k < |nodes| :: nodes[k].id != id
    ensures DeleteNodes(nodes, id) == nodes
  {
    Seqs.FilterKeepsAll(KeepsId(id), nodes);
  }

  /** With distinct ids A, B, C placed in that order, deleting B leaves [A, C]. */
  lemma DeleteMiddleNode(a: Node, b: Node, c: Node)
    requires a.id != b.id && b.id != c.id && a.id != c.id
    ensures DeleteNodes([a, b, c], b.id) == [a, c]
  {
    var p := KeepsId(b.id);
    assert [a, b, c][1..] == [b, c];
    assert [b, c][1..] == [c];
    assert [c][1..] == [];
    assert Seqs.Filter(p, [c]) == [c];
    assert Seqs.Filter(p, [b, c]) == [c];
    assert Seqs.Filter(p, [a, b, c]) == [a] + [c];
  }

  /** The palette: six templates, two triggers, three actions and one
      condition, with distinct labels; "API Call" is an action. */
  lemma TemplateCatalogue()
    ensures |NodeTemplates| == 6
    ensures forall k | 0 <= k < 2 :: NodeTemplates[k].kind == Trigger
    ensures forall k | 2 <= k < 5 :: NodeTemplates[k].kind == Action
    ensures NodeTemplates[5].kind == Condition
    ensures forall k, m | 0 <= k < m < |NodeTemplates| :: NodeTemplates[k].caption != NodeTemplates[m].caption
    ensures NodeTemplates[2].caption == "API Call"
  {
  }
}
