/**
 * The modelling tool's element store and diagram, reduced to plain data: the
 * activity's nodes (addressed by their position of creation), its partitions
 * with their node lists, its control flows, and the diagram's shapes with
 * their bounds.
 */
module HostModel {

  /** The type chosen for an action before the import. */
  datatype ActionType = StructuredActivity | CallBehavior | Opaque

  datatype Kind = InitialNode | ActivityFinalNode | StructuredActivityNode | CallBehaviorAction | OpaqueAction

  /** The element a node was added to: the activity itself, or another node. */
  datatype Owner = InActivity | InNode(parent: nat)

  /** A node with the names of its input and output pins, in the order they were added. */
  datatype Node = Node(name: string, kind: Kind, owner: Owner, inputs: seq<string>, outputs: seq<string>)

  /** A control flow between the nodes with these ids. */
  datatype Edge = ControlFlow(source: nat, target: nat)

  /**
   * Node `i` is `nodes[i]`. `partitions` lists the activity's partitions in
   * creation order, by name; `members` is each partition's node list.
   */
  datatype Store = Store(nodes: seq<Node>, partitions: seq<string>, members: map<string, seq<nat>>, edges: seq<Edge>)

  /**
   * A `java.awt.Rectangle`. The fields are unbounded: the layout's numbers
   * stay far inside the Java `int` range, and only the lane fit works in
   * 32-bit arithmetic, where `DiagramCreation.Modest` states which rectangles keep
   * `x + width` and `y + height` from wrapping.
   */
  datatype Rect = Rect(x: int, y: int, width: int, height: int)

  /** A diagram element: the shape of a node, of a node's input or output pin, or of a partition. */
  datatype ElementRef = NodeShape(id: nat) | InPin(node: nat, index: nat) | OutPin(node: nat, index: nat) | LaneShape(lane: string)

  /** The kinds the layouter sizes as actions. */
  predicate IsAction(k: Kind) {
    k == OpaqueAction || k == CallBehaviorAction || k == StructuredActivityNode
  }

  /** The store after a node is added; the new node's id is the old node count. */
  function AddNode(s: Store, n: Node): (r: Store)
    ensures |r.nodes| == |s.nodes| + 1 && r.nodes[|s.nodes|] == n && r.nodes[..|s.nodes|] == s.nodes
    ensures r == s.(nodes := r.nodes)
  {
    s.(nodes := s.nodes + [n])
  }

  /** The store after node `id` is appended to the node list of partition `lane`. */
  function AddToLane(s: Store, lane: string, id: nat): (r: Store)
    ensures lane in r.members && r.members[lane] == (if lane in s.members then s.members[lane] else []) + [id]
    ensures forall l :: l in s.members && l != lane ==> l in r.members && r.members[l] == s.members[l]
    ensures r == s.(members := r.members)
  {
    var before := if lane in s.members then s.members[lane] else [];
    s.(members := s.members[lane := before + [id]])
  }

  /** The ids of the activity's own nodes, in creation order. */
  function ActivityNodes(nodes: seq<Node>): (ids: seq<nat>)
    ensures forall k :: 0 <= k < |ids| ==> ids[k] < |nodes| && nodes[ids[k]].owner == InActivity
  {
    if nodes == [] then
      []
    else
      var n := |nodes| - 1;
      ActivityNodes(nodes[..n]) + (if nodes[n].owner == InActivity then [n] else [])
  }

  /** The activity's own nodes come in increasing id order, so none is listed twice. */
  lemma {:induction false} ActivityNodesIncreasing(nodes: seq<Node>)
    ensures forall i, j :: 0 <= i < j < |ActivityNodes(nodes)| ==> ActivityNodes(nodes)[i] < ActivityNodes(nodes)[j]
  {
    if nodes != [] {
      var n := |nodes| - 1;
      var front := ActivityNodes(nodes[..n]);
      ActivityNodesIncreasing(nodes[..n]);
      var ids := ActivityNodes(nodes);
      assert ids == front + (if nodes[n].owner == InActivity then [n] else []);
      forall i, j | 0 <= i < j < |ids|
        ensures ids[i] < ids[j]
      {
        assert ids[i] == front[i] && front[i] < n;
        if j == |front| {
          assert ids[j] == n;
        } else {
          assert ids[j] == front[j] && front[i] < front[j];
        }
      }
    }
  }

  /** The shapes of a diagram and their current bounds; a key is present exactly when the shape exists. */
  class Diagram {
    var shapes: map<ElementRef, Rect>

    constructor (shapes: map<ElementRef, Rect>)
      ensures this.shapes == shapes
    {
      this.shapes := shapes;
    }

    /** Moves and resizes an existing shape. */
    method Reshape(e: ElementRef, r: Rect)
      requires e in shapes
      modifies this
      ensures shapes == old(shapes)[e := r]
    {
      shapes := shapes[e := r];
    }
  }
}
