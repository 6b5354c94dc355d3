/**
 * Building the activity from imported rows: one partition per actor, a
 * Start node, one structured node per top-level row chained by control
 * flows, sub-actions nested in their parents, an End node, and finally each
 * partition's shape fitted around the shapes of its nodes.
 */
module DiagramCreation {
  import opened Wrappers
  import opened JavaText
  import opened JavaInt
  import opened ActivityRecord
  import opened HostModel

  const UnassignedLane: string := "<Unassigned>"
  const StartName: string := "Start"
  const EndName: string := "End"
  /** What `iterator().next()` throws on an empty partition map. */
  const NoPartitionError: string := "java.util.NoSuchElementException"
  const Padding: int := 40
  const Placeholder: Rect := Rect(150, 70, 450, 300)

  // ---------------------------------------------------------------------------
  // Partitions

  /** The partition a row belongs to: its trimmed actor, or `<Unassigned>` for a null or blank actor. */
  function LaneKey(actor: Option<string>): (k: string)
    ensures actor.None? || Trim(actor.value) == [] ==> k == UnassignedLane
    ensures actor.Some? && Trim(actor.value) != [] ==> k == Trim(actor.value)
  {
    if actor.None? || Trim(actor.value) == [] then UnassignedLane else Trim(actor.value)
  }

  /** The distinct partition names of the top-level rows, in the order first seen. */
  function Actors(rows: seq<Row>): seq<string> {
    if rows == [] then
      []
    else
      var n := |rows| - 1;
      var front := Actors(rows[..n]);
      if rows[n].isSubAction || LaneKey(rows[n].actor) in front then front else front + [LaneKey(rows[n].actor)]
  }

  /** Some top-level row belongs to partition `a`. */
  predicate HasLane(rows: seq<Row>, a: string) {
    exists i :: 0 <= i < |rows| && !rows[i].isSubAction && LaneKey(rows[i].actor) == a
  }

  /** The fresh activity's store once its partitions exist, each with an empty node list. */
  function PartitionStore(rows: seq<Row>): Store {
    Store([], Actors(rows), map a | a in Actors(rows) :: [], [])
  }

  method CreateActivityPartitions(rows: seq<Row>) returns (s: Store)
    ensures s == PartitionStore(rows)
  {
    var actors: seq<string> := [];
    var i := 0;
    while i < |rows|
      invariant 0 <= i <= |rows|
      invariant actors == Actors(rows[..i])
    {
      assert rows[..i + 1][..i] == rows[..i];
      if rows[i].isSubAction {
        i := i + 1;
        continue;
      }
      var actor := LaneKey(rows[i].actor);
      if actor !in actors {
        actors := actors + [actor];
      }
      i := i + 1;
    }
    assert rows[..i] == rows;
    var partitions: seq<string> := [];
    var members: map<string, seq<nat>> := map[];
    var j := 0;
    while j < |actors|
      invariant 0 <= j <= |actors|
      invariant partitions == actors[..j]
      invariant members == map a | a in actors[..j] :: []
    {
      assert actors[..j + 1] == actors[..j] + [actors[j]];
      partitions := partitions + [actors[j]];
      members := members[actors[j] := []];
      j := j + 1;
    }
    assert actors[..j] == actors;
    s := Store([], partitions, members, []);
  }

  // ---------------------------------------------------------------------------
  // Nodes and control flows

  /** The chosen type of the row named `name`, structured by default. */
  function ChosenType(types: map<string, ActionType>, name: string): ActionType {
    if name in types then types[name] else StructuredActivity
  }

  /** A sub-action is a call behavior action only for the call behavior type. */
  function SubKind(t: ActionType): Kind {
    if t == CallBehavior then CallBehaviorAction else StructuredActivityNode
  }

  /** The node of a top-level row: always structured, whatever type was chosen. */
  function MainNode(d: Row): Node {
    Node(d.name, StructuredActivityNode, InActivity, d.inputs, d.outputs)
  }

  /** The node of a sub-action row nested in node `parent`. */
  function SubNode(d: Row, t: ActionType, parent: nat): Node {
    Node(d.name, SubKind(t), InNode(parent), d.inputs, d.outputs)
  }

  const StartNode: Node := Node(StartName, InitialNode, InActivity, [], [])
  const EndNode: Node := Node(EndName, ActivityFinalNode, InActivity, [], [])

  /**
   * The state of the row loop: the store, the id of the node the next control
   * flow starts from, the top-level node last created under each name, and
   * (for the proofs) the ids of the top-level nodes created so far.
   */
  datatype Build = Build(store: Store, prev: nat, mainMap: map<string, nat>, mains: seq<nat>)

  /** One pass through the row loop. */
  function Step(b: Build, d: Row, types: map<string, ActionType>): Build {
    if d.isSubAction then
      if d.parentName.Some? && d.parentName.value in b.mainMap then
        var t := ChosenType(types, d.name);
        b.(store := AddNode(b.store, SubNode(d, t, b.mainMap[d.parentName.value])))
      else
        b
    else
      var id := |b.store.nodes|;
      var lane := LaneKey(d.actor);
      var s1 := AddNode(b.store, MainNode(d));
      var s2 := if lane in b.store.partitions then AddToLane(s1, lane, id) else s1;
      Build(s2.(edges := s2.edges + [ControlFlow(b.prev, id)]), id, b.mainMap[d.name := id], b.mains + [id])
  }

  /** The row loop over `rows`, from state `b`. */
  function Walk(b: Build, rows: seq<Row>, types: map<string, ActionType>): Build {
    if rows == [] then b else Step(Walk(b, rows[..|rows| - 1], types), rows[|rows| - 1], types)
  }

  /** The loop state once Start is in place. */
  function StartBuild(store: Store): Build
    requires store.partitions != []
  {
    var startId := |store.nodes|;
    Build(AddToLane(AddNode(store, StartNode), store.partitions[0], startId), startId, map[], [])
  }

  /** The store once End is added after the row loop ended in state `w`. */
  function Finish(first: string, w: Build): Store {
    var endId := |w.store.nodes|;
    var s := AddToLane(AddNode(w.store, EndNode), first, endId);
    s.(edges := s.edges + [ControlFlow(w.prev, endId)])
  }

  /** What creating the nodes and control flows does to the store. */
  function BuildNodes(store: Store, rows: seq<Row>, types: map<string, ActionType>): Result<Store> {
    if store.partitions == [] then
      Err(NoPartitionError)
    else
      Ok(Finish(store.partitions[0], Walk(StartBuild(store), rows, types)))
  }

  /** The whole creation: partitions, then nodes and control flows. */
  function CreateActivity(rows: seq<Row>, types: map<string, ActionType>): Result<Store> {
    BuildNodes(PartitionStore(rows), rows, types)
  }

  /** Adds one pin per listed input and one per listed output, in order. */
  method AddPins(n: Node, d: Row) returns (m: Node)
    ensures m == n.(inputs := n.inputs + d.inputs, outputs := n.outputs + d.outputs)
  {
    m := n;
    var i := 0;
    while i < |d.inputs|
      invariant 0 <= i <= |d.inputs|
      invariant m == n.(inputs := n.inputs + d.inputs[..i])
    {
      assert d.inputs[..i + 1] == d.inputs[..i] + [d.inputs[i]];
      m := m.(inputs := m.inputs + [d.inputs[i]]);
      i := i + 1;
    }
    assert d.inputs[..i] == d.inputs;
    var j := 0;
    while j < |d.outputs|
      invariant 0 <= j <= |d.outputs|
      invariant m == n.(inputs := n.inputs + d.inputs, outputs := n.outputs + d.outputs[..j])
    {
      assert d.outputs[..j + 1] == d.outputs[..j] + [d.outputs[j]];
      m := m.(outputs := m.outputs + [d.outputs[j]]);
      j := j + 1;
    }
    assert d.outputs[..j] == d.outputs;
  }

  method CreateMainAction(store: Store, d: Row) returns (s: Store, id: nat)
    ensures s == AddNode(store, MainNode(d)) && id == |store.nodes|
  {
    var n := AddPins(Node(d.name, StructuredActivityNode, InActivity, [], []), d);
    assert [] + d.inputs == d.inputs && [] + d.outputs == d.outputs;
    id := |store.nodes|;
    s := AddNode(store, n);
  }

  method CreateSubAction(store: Store, parent: nat, d: Row, t: ActionType) returns (s: Store)
    ensures s == AddNode(store, SubNode(d, t, parent))
  {
    var n: Node;
    if t == CallBehavior {
      n := AddPins(Node(d.name, CallBehaviorAction, InNode(parent), [], []), d);
    } else {
      n := AddPins(Node(d.name, StructuredActivityNode, InNode(parent), [], []), d);
    }
    assert [] + d.inputs == d.inputs && [] + d.outputs == d.outputs;
    s := AddNode(store, n);
  }

  /** One pass of the row loop of `createActivityNodes`. */
  method ProcessRow(s: Store, prev: nat, mainMap: map<string, nat>, ghost mains: seq<nat>,
                    d: Row, types: map<string, ActionType>)
    returns (s': Store, prev': nat, mainMap': map<string, nat>, ghost mains': seq<nat>)
    ensures Build(s', prev', mainMap', mains') == Step(Build(s, prev, mainMap, mains), d, types)
  {
    s', prev', mainMap', mains' := s, prev, mainMap, mains;
    var t := ChosenType(types, d.name);
    var laneKey := LaneKey(d.actor);
    if d.isSubAction {
      if d.parentName.None? || d.parentName.value !in mainMap {
        return;
      }
      s' := CreateSubAction(s, mainMap[d.parentName.value], d, t);
    } else {
      var main;
      s', main := CreateMainAction(s, d);
      if laneKey in s'.partitions {
        s' := AddToLane(s', laneKey, main);
      }
      mainMap' := mainMap[d.name := main];
      s' := s'.(edges := s'.edges + [ControlFlow(prev, main)]);
      prev' := main;
      mains' := mains + [main];
    }
  }

  method CreateActivityNodes(store: Store, rows: seq<Row>, types: map<string, ActionType>) returns (r: Result<Store>)
    ensures r == BuildNodes(store, rows, types)
  {
    if store.partitions == [] {
      return Err(NoPartitionError);
    }
    var firstLane := store.partitions[0];
    var start := |store.nodes|;
    var s := AddToLane(AddNode(store, StartNode), firstLane, start);
    var prev: nat := start;
    var mainMap: map<string, nat> := map[];
    ghost var mains: seq<nat> := [];
    var i := 0;
    while i < |rows|
      invariant 0 <= i <= |rows|
      invariant Build(s, prev, mainMap, mains) == Walk(StartBuild(store), rows[..i], types)
    {
      assert rows[..i + 1][..i] == rows[..i];
      s, prev, mainMap, mains := ProcessRow(s, prev, mainMap, mains, rows[i], types);
      i := i + 1;
    }
    assert rows[..i] == rows;
    var end := |s.nodes|;
    s := AddToLane(AddNode(s, EndNode), firstLane, end);
    s := s.(edges := s.edges + [ControlFlow(prev, end)]);
    r := Ok(s);
  }

  // ---------------------------------------------------------------------------
  // Properties of the partitions

  /** No partition name occurs twice. */
  lemma {:induction false} ActorsDistinct(rows: seq<Row>)
    ensures forall i, j :: 0 <= i < j < |Actors(rows)| ==> Actors(rows)[i] != Actors(rows)[j]
  {
    if rows != [] {
      ActorsDistinct(rows[..|rows| - 1]);
    }
  }

  /** A partition exists exactly for the partition names of the top-level rows. */
  lemma {:induction false} ActorsMembers(rows: seq<Row>)
    ensures forall a :: a in Actors(rows) <==> HasLane(rows, a)
  {
    if rows != [] {
      var n := |rows| - 1;
      var front := rows[..n];
      ActorsMembers(front);
      forall a
        ensures a in Actors(rows) <==> HasLane(rows, a)
      {
        if a in Actors(front) {
          var i :| 0 <= i < |front| && !front[i].isSubAction && LaneKey(front[i].actor) == a;
          assert rows[i] == front[i];
        }
        if HasLane(rows, a) {
          var i :| 0 <= i < |rows| && !rows[i].isSubAction && LaneKey(rows[i].actor) == a;
          if i < n {
            assert front[i] == rows[i];
          }
        }
      }
    }
  }

  /** Partitions are only ever added at the end: those of a prefix of the rows come first, in the same order. */
  lemma {:induction false} ActorsGrow(rows: seq<Row>, i: nat)
    requires i <= |rows|
    ensures Actors(rows[..i]) <= Actors(rows)
  {
    if i < |rows| {
      var n := |rows| - 1;
      assert rows[..n][..i] == rows[..i];
      ActorsGrow(rows[..n], i);
    } else {
      assert rows[..i] == rows;
    }
  }

  /** The top-level rows, in order. */
  function TopRows(rows: seq<Row>): (tops: seq<Row>)
    ensures |tops| <= |rows|
  {
    if rows == [] then
      []
    else
      var n := |rows| - 1;
      TopRows(rows[..n]) + (if rows[n].isSubAction then [] else [rows[n]])
  }

  /** Without a top-level row there is no partition, and the other way round. */
  lemma {:induction false} NoLanesIffNoTopRows(rows: seq<Row>)
    ensures Actors(rows) == [] <==> TopRows(rows) == []
  {
    if rows != [] {
      NoLanesIffNoTopRows(rows[..|rows| - 1]);
    }
  }

  /** Every top-level row's partition exists. */
  lemma {:induction false} TopLanesExist(rows: seq<Row>)
    ensures forall k :: 0 <= k < |TopRows(rows)| ==> LaneKey(TopRows(rows)[k].actor) in Actors(rows)
  {
    if rows != [] {
      var n := |rows| - 1;
      TopLanesExist(rows[..n]);
      assert Actors(rows[..n]) <= Actors(rows);
    }
  }

  // ---------------------------------------------------------------------------
  // Properties of the nodes and control flows

  /** The control flows linking consecutive ids of a path. */
  function Links(ids: seq<nat>): (es: seq<Edge>)
    ensures |es| == if ids == [] then 0 else |ids| - 1
  {
    if |ids| <= 1 then [] else Links(ids[..|ids| - 1]) + [ControlFlow(ids[|ids| - 2], ids[|ids| - 1])]
  }

  /** Flow `k` of a path runs from its id `k` to its id `k + 1`. */
  lemma {:induction false} LinksChain(ids: seq<nat>)
    ensures forall k :: 0 <= k < |ids| - 1 ==> Links(ids)[k] == ControlFlow(ids[k], ids[k + 1])
  {
    if |ids| > 1 {
      var n := |ids| - 1;
      LinksChain(ids[..n]);
    }
  }

  /** Extending a path by one id adds the one flow to it. */
  lemma LinksSnoc(ids: seq<nat>, x: nat)
    requires ids != []
    ensures Links(ids + [x]) == Links(ids) + [ControlFlow(ids[|ids| - 1], x)]
  {
    assert (ids + [x])[..|ids|] == ids;
  }

  /** One more row of the loop. */
  lemma WalkSnoc(b: Build, rows: seq<Row>, d: Row, types: map<string, ActionType>)
    ensures Walk(b, rows + [d], types) == Step(Walk(b, rows, types), d, types)
    ensures TopRows(rows + [d]) == TopRows(rows) + (if d.isSubAction then [] else [d])
  {
    assert (rows + [d])[..|rows|] == rows;
  }

  /** What one pass of the loop changes. */
  lemma StepFacts(b: Build, d: Row, types: map<string, ActionType>)
    ensures var s := Step(b, d, types);
            && s.store.partitions == b.store.partitions
            && |b.store.nodes| <= |s.store.nodes| <= |b.store.nodes| + 1
            && s.store.nodes[..|b.store.nodes|] == b.store.nodes
            && (d.isSubAction ==> s.prev == b.prev && s.mains == b.mains && s.mainMap == b.mainMap &&
                                  s.store.edges == b.store.edges)
            && (!d.isSubAction ==> && s.prev == |b.store.nodes| && s.mains == b.mains + [s.prev]
                                   && s.mainMap == b.mainMap[d.name := s.prev]
                                   && s.store.edges == b.store.edges + [ControlFlow(b.prev, s.prev)]
                                   && s.store.nodes == b.store.nodes + [MainNode(d)])
  {
  }

  /** One pass of the loop keeps every partition member and adds a top-level node to its row's partition. */
  lemma StepMembers(b: Build, d: Row, types: map<string, ActionType>)
    ensures var s := Step(b, d, types);
            && (forall l, x :: l in b.store.members && x in b.store.members[l] ==>
                                 l in s.store.members && x in s.store.members[l])
            && (!d.isSubAction && LaneKey(d.actor) in b.store.partitions ==>
                  LaneKey(d.actor) in s.store.members && s.prev in s.store.members[LaneKey(d.actor)])
  {
  }

  /** The loop only appends nodes and leaves the partitions alone. */
  lemma {:induction false} WalkGrows(b: Build, rows: seq<Row>, types: map<string, ActionType>)
    ensures var w := Walk(b, rows, types);
            && w.store.partitions == b.store.partitions
            && |b.store.nodes| <= |w.store.nodes| && w.store.nodes[..|b.store.nodes|] == b.store.nodes
  {
    if rows != [] {
      var n := |rows| - 1;
      WalkGrows(b, rows[..n], types);
      var wf := Walk(b, rows[..n], types);
      StepFacts(wf, rows[n], types);
      var w := Walk(b, rows, types);
      assert w.store.nodes[..|b.store.nodes|] == wf.store.nodes[..|b.store.nodes|];
    }
  }

  /** The loop creates one top-level node per top-level row. */
  lemma {:induction false} WalkCount(b: Build, rows: seq<Row>, types: map<string, ActionType>)
    ensures |Walk(b, rows, types).mains| == |b.mains| + |TopRows(rows)|
  {
    if rows != [] {
      var n := |rows| - 1;
      WalkCount(b, rows[..n], types);
      StepFacts(Walk(b, rows[..n], types), rows[n], types);
    }
  }

  /**
   * From a state with no top-level node yet, the loop links the top-level
   * nodes in row order, starting from `prev`, and ends at the last of them.
   */
  lemma {:induction false} WalkEdges(b: Build, rows: seq<Row>, types: map<string, ActionType>)
    requires b.mains == []
    ensures var w := Walk(b, rows, types);
            && w.store.edges == b.store.edges + Links([b.prev] + w.mains)
            && w.prev == (if w.mains == [] then b.prev else w.mains[|w.mains| - 1])
  {
    if rows != [] {
      var n := |rows| - 1;
      WalkEdges(b, rows[..n], types);
      var wf := Walk(b, rows[..n], types);
      StepFacts(wf, rows[n], types);
      var w := Walk(b, rows, types);
      if !rows[n].isSubAction {
        LinksSnoc([b.prev] + wf.mains, w.prev);
        assert [b.prev] + w.mains == [b.prev] + wf.mains + [w.prev];
      }
    }
  }

  /** Top-level node `k` is the node of top-level row `k`, created after the starting state. */
  lemma {:induction false} WalkMainNodes(b: Build, rows: seq<Row>, types: map<string, ActionType>)
    requires b.mains == []
    ensures var w := Walk(b, rows, types);
            forall k :: 0 <= k < |w.mains| ==>
              && |b.store.nodes| <= w.mains[k] < |w.store.nodes|
              && k < |TopRows(rows)| && w.store.nodes[w.mains[k]] == MainNode(TopRows(rows)[k])
  {
    if rows != [] {
      var n := |rows| - 1;
      var front, d := rows[..n], rows[n];
      assert rows == front + [d];
      WalkSnoc(b, front, d, types);
      WalkMainNodes(b, front, types);
      WalkCount(b, front, types);
      WalkGrows(b, front, types);
      var wf := Walk(b, front, types);
      var w := Walk(b, rows, types);
      assert w.store.nodes[..|wf.store.nodes|] == wf.store.nodes;
      forall k | 0 <= k < |w.mains|
        ensures && |b.store.nodes| <= w.mains[k] < |w.store.nodes|
                && k < |TopRows(rows)| && w.store.nodes[w.mains[k]] == MainNode(TopRows(rows)[k])
      {
        if k < |wf.mains| {
          assert w.mains[k] == wf.mains[k];
          assert TopRows(rows)[k] == TopRows(front)[k];
          assert w.store.nodes[wf.mains[k]] == wf.store.nodes[wf.mains[k]];
        }
      }
    }
  }

  /** The last top-level row named `nm`, or -1. */
  function LastNamed(tops: seq<Row>, nm: string): (r: int)
    ensures -1 <= r < |tops|
    ensures r >= 0 ==> tops[r].name == nm
  {
    if tops == [] then -1
    else if tops[|tops| - 1].name == nm then |tops| - 1
    else LastNamed(tops[..|tops| - 1], nm)
  }

  /** No later top-level row has the name LastNamed finds. */
  lemma {:induction false} LastNamedIsLast(tops: seq<Row>, nm: string)
    ensures forall k :: LastNamed(tops, nm) < k < |tops| ==> tops[k].name != nm
  {
    if tops != [] && tops[|tops| - 1].name != nm {
      LastNamedIsLast(tops[..|tops| - 1], nm);
    }
  }

  /**
   * From a state with no top-level node yet, a name maps to a node exactly
   * when some top-level row has it, and then to the node of the last such row.
   */
  lemma {:induction false} WalkMainMap(b: Build, rows: seq<Row>, types: map<string, ActionType>)
    requires b.mains == [] && b.mainMap == map[]
    ensures var w := Walk(b, rows, types);
            forall nm :: && (nm in w.mainMap <==> LastNamed(TopRows(rows), nm) >= 0)
                         && (nm in w.mainMap ==> LastNamed(TopRows(rows), nm) < |w.mains| &&
                                                 w.mainMap[nm] == w.mains[LastNamed(TopRows(rows), nm)])
  {
    if rows != [] {
      var n := |rows| - 1;
      var front, d := rows[..n], rows[n];
      assert rows == front + [d];
      WalkSnoc(b, front, d, types);
      WalkMainMap(b, front, types);
      WalkCount(b, front, types);
      var wf := Walk(b, front, types);
      var w := Walk(b, rows, types);
      var tops := TopRows(rows);
      if d.isSubAction {
        assert w.mainMap == wf.mainMap && w.mains == wf.mains && tops == TopRows(front);
      } else {
        var id := |wf.store.nodes|;
        assert w.mainMap == wf.mainMap[d.name := id] && w.mains == wf.mains + [id];
        assert tops[..|tops| - 1] == TopRows(front) && tops[|tops| - 1] == d;
        forall nm
          ensures && (nm in w.mainMap <==> LastNamed(tops, nm) >= 0)
                  && (nm in w.mainMap ==> LastNamed(tops, nm) < |w.mains| &&
                                          w.mainMap[nm] == w.mains[LastNamed(tops, nm)])
        {
          if nm != d.name {
            assert LastNamed(tops, nm) == LastNamed(TopRows(front), nm);
          }
        }
      }
    }
  }

  /** Partition membership only grows. */
  lemma {:induction false} WalkKeepsMembers(b: Build, rows: seq<Row>, types: map<string, ActionType>)
    ensures var w := Walk(b, rows, types);
            forall l, x :: l in b.store.members && x in b.store.members[l] ==>
                             l in w.store.members && x in w.store.members[l]
  {
    if rows != [] {
      var n := |rows| - 1;
      WalkKeepsMembers(b, rows[..n], types);
    }
  }

  /** Each top-level node is in its row's partition, when that partition exists. */
  lemma {:induction false} WalkLanes(b: Build, rows: seq<Row>, types: map<string, ActionType>)
    requires b.mains == []
    ensures var w := Walk(b, rows, types);
            forall k :: 0 <= k < |w.mains| && k < |TopRows(rows)| &&
                        LaneKey(TopRows(rows)[k].actor) in b.store.partitions ==>
                          LaneKey(TopRows(rows)[k].actor) in w.store.members &&
                          w.mains[k] in w.store.members[LaneKey(TopRows(rows)[k].actor)]
  {
    if rows != [] {
      var n := |rows| - 1;
      var front, d := rows[..n], rows[n];
      assert rows == front + [d];
      WalkSnoc(b, front, d, types);
      WalkLanes(b, front, types);
      WalkCount(b, front, types);
      WalkGrows(b, front, types);
      var wf := Walk(b, front, types);
      StepFacts(wf, d, types);
      StepMembers(wf, d, types);
      var w := Walk(b, rows, types);
      forall k | 0 <= k < |w.mains| && k < |TopRows(rows)| && LaneKey(TopRows(rows)[k].actor) in b.store.partitions
        ensures LaneKey(TopRows(rows)[k].actor) in w.store.members &&
                w.mains[k] in w.store.members[LaneKey(TopRows(rows)[k].actor)]
      {
        if k < |wf.mains| {
          assert w.mains[k] == wf.mains[k];
          assert TopRows(rows)[k] == TopRows(front)[k];
        }
      }
    }
  }

  /** The top-level nodes that join partition `l`: `mains[k]` for each top-level row `tops[k]` of `l`, in row order. */
  function LaneMains(tops: seq<Row>, mains: seq<nat>, l: string): seq<nat>
    requires |tops| == |mains|
  {
    if tops == [] then
      []
    else
      var n := |tops| - 1;
      LaneMains(tops[..n], mains[..n], l) + (if LaneKey(tops[n].actor) == l then [mains[n]] else [])
  }

  /** Every node listed for `l` is the node of a top-level row of partition `l`. */
  lemma {:induction false} LaneMainsFrom(tops: seq<Row>, mains: seq<nat>, l: string, x: nat)
    requires |tops| == |mains|
    ensures x in LaneMains(tops, mains, l) ==> exists k :: 0 <= k < |tops| && mains[k] == x && LaneKey(tops[k].actor) == l
  {
    var n := |tops| - 1;
    if tops == [] {
    } else if x in LaneMains(tops[..n], mains[..n], l) {
      LaneMainsFrom(tops[..n], mains[..n], l, x);
      var k :| 0 <= k < n && mains[..n][k] == x && LaneKey(tops[..n][k].actor) == l;
      assert mains[k] == x && tops[k] == tops[..n][k];
    } else if x in LaneMains(tops, mains, l) {
      assert mains[n] == x && LaneKey(tops[n].actor) == l;
    }
  }

  /** Adding one more top-level node at the end of the rows adds it at the end of its partition's list. */
  lemma LaneMainsSnoc(tops: seq<Row>, mains: seq<nat>, d: Row, x: nat, l: string)
    requires |tops| == |mains|
    ensures LaneMains(tops + [d], mains + [x], l) == LaneMains(tops, mains, l) + (if LaneKey(d.actor) == l then [x] else [])
  {
    assert (tops + [d])[..|tops|] == tops;
    assert (mains + [x])[..|mains|] == mains;
  }

  /** One pass of the loop appends a top-level node to its own existing partition and changes no other list. */
  lemma StepMembersExact(b: Build, d: Row, types: map<string, ActionType>, l: string)
    requires LaneKey(d.actor) in b.store.partitions ==> LaneKey(d.actor) in b.store.members
    ensures var s := Step(b, d, types);
            && (l in s.store.members <==> l in b.store.members)
            && (l in b.store.members ==>
                  s.store.members[l] ==
                    b.store.members[l] +
                    (if !d.isSubAction && l == LaneKey(d.actor) && l in b.store.partitions then [|b.store.nodes|] else []))
  {
  }

  /**
   * Partition `l` of the loop state `w` holds what it held in `b`, followed,
   * when `l` is a partition, by the top-level nodes of `tops` that belong to it.
   */
  predicate MembersAt(b: Build, w: Build, tops: seq<Row>, l: string)
    requires |tops| == |w.mains|
  {
    && (l in w.store.members <==> l in b.store.members)
    && (l in b.store.members ==>
          w.store.members[l] ==
            b.store.members[l] + (if l in b.store.partitions then LaneMains(tops, w.mains, l) else []))
  }

  /** One pass of the loop keeps `MembersAt` for every partition name. */
  lemma MembersAtStep(b: Build, wf: Build, tops: seq<Row>, d: Row, types: map<string, ActionType>, l: string)
    requires |tops| == |wf.mains| && wf.store.partitions == b.store.partitions
    requires MembersAt(b, wf, tops, l)
    requires LaneKey(d.actor) in wf.store.partitions ==> LaneKey(d.actor) in wf.store.members
    ensures var w := Step(wf, d, types);
            var tops' := tops + (if d.isSubAction then [] else [d]);
            |tops'| == |w.mains| && MembersAt(b, w, tops', l)
  {
    StepMembersExact(wf, d, types, l);
    var w := Step(wf, d, types);
    if !d.isSubAction {
      var id := |wf.store.nodes|;
      assert w.mains == wf.mains + [id];
      LaneMainsSnoc(tops, wf.mains, d, id, l);
      if l in b.store.members && l in b.store.partitions {
        var before, lm := b.store.members[l], LaneMains(tops, wf.mains, l);
        var extra := if LaneKey(d.actor) == l then [id] else [];
        assert w.store.members[l] == before + lm + extra;
        assert before + (lm + extra) == before + lm + extra;
      }
    } else {
      assert tops + [] == tops;
    }
  }

  /** `WalkMembers` for one partition name `l`. */
  lemma {:induction false} WalkMembersAt(b: Build, rows: seq<Row>, types: map<string, ActionType>, l: string)
    requires b.mains == []
    requires forall l :: l in b.store.partitions ==> l in b.store.members
    ensures var w := Walk(b, rows, types);
            |w.mains| == |TopRows(rows)| && MembersAt(b, w, TopRows(rows), l)
  {
    WalkCount(b, rows, types);
    if rows != [] {
      var n := |rows| - 1;
      var front, d := rows[..n], rows[n];
      assert rows == front + [d];
      WalkSnoc(b, front, d, types);
      WalkMembersAt(b, front, types, l);
      WalkMembersAt(b, front, types, LaneKey(d.actor));
      WalkGrows(b, front, types);
      WalkCount(b, front, types);
      MembersAtStep(b, Walk(b, front, types), TopRows(front), d, types, l);
    }
  }

  /**
   * The loop appends to each existing partition exactly the new top-level
   * nodes of that partition, in row order, and to nothing else: sub-actions
   * join no partition, and no partition is created.
   */
  lemma WalkMembers(b: Build, rows: seq<Row>, types: map<string, ActionType>)
    requires b.mains == []
    requires forall l :: l in b.store.partitions ==> l in b.store.members
    ensures var w := Walk(b, rows, types);
            && |w.mains| == |TopRows(rows)|
            && w.store.members.Keys == b.store.members.Keys
            && forall l :: l in b.store.members ==>
                 w.store.members[l] ==
                   b.store.members[l] + (if l in b.store.partitions then LaneMains(TopRows(rows), w.mains, l) else [])
  {
    WalkCount(b, rows, types);
    var w := Walk(b, rows, types);
    forall l
      ensures (l in w.store.members <==> l in b.store.members)
      ensures l in b.store.members ==>
                w.store.members[l] ==
                  b.store.members[l] + (if l in b.store.partitions then LaneMains(TopRows(rows), w.mains, l) else [])
    {
      WalkMembersAt(b, rows, types, l);
    }
  }

  /** The top-level nodes come in increasing id order, after every node of the starting state. */
  lemma {:induction false} WalkMainsIncreasing(b: Build, rows: seq<Row>, types: map<string, ActionType>)
    requires b.mains == []
    ensures var w := Walk(b, rows, types);
            forall i, j :: 0 <= i < j < |w.mains| ==> w.mains[i] < w.mains[j]
  {
    if rows != [] {
      var n := |rows| - 1;
      var front, d := rows[..n], rows[n];
      assert rows == front + [d];
      WalkSnoc(b, front, d, types);
      WalkMainsIncreasing(b, front, types);
      WalkMainNodes(b, front, types);
      var wf := Walk(b, front, types);
      StepFacts(wf, d, types);
      var w := Walk(b, rows, types);
      assert w == Step(wf, d, types);
      forall i, j | 0 <= i < j < |w.mains|
        ensures w.mains[i] < w.mains[j]
      {
        assert w.mains[i] == wf.mains[i];
        if j < |wf.mains| {
          assert w.mains[j] == wf.mains[j];
          assert wf.mains[i] < wf.mains[j];
        } else {
          assert w.mains[j] == |wf.store.nodes|;
          assert wf.mains[i] < |wf.store.nodes|;
        }
      }
    }
  }

  /** The ids of the top-level nodes, in row order. */
  function MainIds(store: Store, rows: seq<Row>, types: map<string, ActionType>): seq<nat>
    requires store.partitions != []
  {
    Walk(StartBuild(store), rows, types).mains
  }

  /** The node ids the control flows visit: Start, the top-level nodes in row order, End. */
  function FlowPath(store: Store, rows: seq<Row>, types: map<string, ActionType>): seq<nat>
    requires store.partitions != []
  {
    [|store.nodes|] + MainIds(store, rows, types) + [|Walk(StartBuild(store), rows, types).store.nodes|]
  }

  /**
   * The new control flows form one chain along the flow path: one per
   * top-level row plus the one into End.
   */
  lemma BuildEdges(store: Store, rows: seq<Row>, types: map<string, ActionType>)
    requires store.partitions != []
    ensures BuildNodes(store, rows, types).Ok?
    ensures var s := BuildNodes(store, rows, types).value;
            var path := FlowPath(store, rows, types);
            && |path| == |TopRows(rows)| + 2
            && s.edges == store.edges + Links(path)
            && |s.edges| == |store.edges| + |TopRows(rows)| + 1
  {
    var b := StartBuild(store);
    WalkEdges(b, rows, types);
    WalkCount(b, rows, types);
    var w := Walk(b, rows, types);
    LinksSnoc([b.prev] + w.mains, |w.store.nodes|);
  }

  /** The flow path starts at Start, ends at End, and visits the node of each top-level row in order. */
  lemma BuildPathNodes(store: Store, rows: seq<Row>, types: map<string, ActionType>)
    requires store.partitions != []
    ensures BuildNodes(store, rows, types).Ok?
    ensures var s := BuildNodes(store, rows, types).value;
            var path := FlowPath(store, rows, types);
            && |path| == |TopRows(rows)| + 2
            && |store.nodes| <= |s.nodes| && s.nodes[..|store.nodes|] == store.nodes
            && (forall k :: 0 <= k < |path| ==> path[k] < |s.nodes|)
            && s.nodes[path[0]] == StartNode && s.nodes[path[|path| - 1]] == EndNode
            && (forall k :: 0 <= k < |TopRows(rows)| ==> s.nodes[path[k + 1]] == MainNode(TopRows(rows)[k]))
  {
    var b := StartBuild(store);
    WalkCount(b, rows, types);
    WalkGrows(b, rows, types);
    WalkMainNodes(b, rows, types);
    FinishNodes(store, b, Walk(b, rows, types), TopRows(rows));
  }

  lemma FinishNodes(store: Store, b: Build, w: Build, tops: seq<Row>)
    requires store.partitions != [] && b == StartBuild(store)
    requires |w.mains| == |tops|
    requires |b.store.nodes| <= |w.store.nodes| && w.store.nodes[..|b.store.nodes|] == b.store.nodes
    requires forall k :: 0 <= k < |w.mains| ==>
               |b.store.nodes| <= w.mains[k] < |w.store.nodes| && w.store.nodes[w.mains[k]] == MainNode(tops[k])
    ensures var s := Finish(store.partitions[0], w);
            var path := [|store.nodes|] + w.mains + [|w.store.nodes|];
            && |store.nodes| <= |s.nodes| && s.nodes[..|store.nodes|] == store.nodes
            && (forall k :: 0 <= k < |path| ==> path[k] < |s.nodes|)
            && s.nodes[path[0]] == StartNode && s.nodes[path[|path| - 1]] == EndNode
            && (forall k :: 0 <= k < |tops| ==> s.nodes[path[k + 1]] == MainNode(tops[k]))
  {
    var s := Finish(store.partitions[0], w);
    var path := [|store.nodes|] + w.mains + [|w.store.nodes|];
    assert s.nodes == w.store.nodes + [EndNode];
    assert b.store.nodes == store.nodes + [StartNode];
    assert s.nodes[..|store.nodes|] == store.nodes by {
      assert s.nodes[..|store.nodes|] == w.store.nodes[..|store.nodes| + 1][..|store.nodes|];
    }
    assert s.nodes[path[0]] == StartNode by {
      assert s.nodes[|store.nodes|] == w.store.nodes[..|store.nodes| + 1][|store.nodes|];
    }
    forall k | 0 <= k < |tops|
      ensures s.nodes[path[k + 1]] == MainNode(tops[k])
    {
      assert path[k + 1] == w.mains[k];
    }
  }

  /**
   * Start is in the first partition and End is the last node added to it;
   * each top-level node is in its row's partition when that partition exists.
   */
  lemma BuildLanes(store: Store, rows: seq<Row>, types: map<string, ActionType>)
    requires store.partitions != []
    ensures BuildNodes(store, rows, types).Ok?
    ensures var s := BuildNodes(store, rows, types).value;
            var path := FlowPath(store, rows, types);
            var first := store.partitions[0];
            && |path| == |TopRows(rows)| + 2
            && first in s.members && path[0] in s.members[first]
            && s.members[first] != [] && s.members[first][|s.members[first]| - 1] == path[|path| - 1]
            && forall k :: 0 <= k < |TopRows(rows)| && LaneKey(TopRows(rows)[k].actor) in store.partitions ==>
                 LaneKey(TopRows(rows)[k].actor) in s.members && path[k + 1] in s.members[LaneKey(TopRows(rows)[k].actor)]
  {
    var b := StartBuild(store);
    WalkCount(b, rows, types);
    WalkKeepsMembers(b, rows, types);
    WalkLanes(b, rows, types);
    FinishLanes(store, b, Walk(b, rows, types), TopRows(rows));
  }

  lemma FinishLanes(store: Store, b: Build, w: Build, tops: seq<Row>)
    requires store.partitions != [] && b == StartBuild(store)
    requires |w.mains| == |tops|
    requires forall l, x :: l in b.store.members && x in b.store.members[l] ==>
                              l in w.store.members && x in w.store.members[l]
    requires forall k :: 0 <= k < |w.mains| && k < |tops| && LaneKey(tops[k].actor) in b.store.partitions ==>
                           LaneKey(tops[k].actor) in w.store.members && w.mains[k] in w.store.members[LaneKey(tops[k].actor)]
    ensures var s := Finish(store.partitions[0], w);
            var path := [|store.nodes|] + w.mains + [|w.store.nodes|];
            var first := store.partitions[0];
            && first in s.members && path[0] in s.members[first]
            && s.members[first] != [] && s.members[first][|s.members[first]| - 1] == path[|path| - 1]
            && forall k :: 0 <= k < |tops| && LaneKey(tops[k].actor) in store.partitions ==>
                 LaneKey(tops[k].actor) in s.members && path[k + 1] in s.members[LaneKey(tops[k].actor)]
  {
    var path := [|store.nodes|] + w.mains + [|w.store.nodes|];
    var first := store.partitions[0];
    assert first in b.store.members && path[0] in b.store.members[first];
    forall k | 0 <= k < |tops| && LaneKey(tops[k].actor) in store.partitions
      ensures LaneKey(tops[k].actor) in w.store.members && path[k + 1] in w.store.members[LaneKey(tops[k].actor)]
    {
      assert path[k + 1] == w.mains[k];
    }
  }

  /**
   * A sub-action row adds no control flow and leaves `prev` alone. It is
   * nested in the node of the last earlier top-level row named by its parent
   * name, as a call behavior action exactly when that is its chosen type;
   * without such a row it changes nothing.
   */
  lemma SubActionAttaches(store: Store, rows: seq<Row>, types: map<string, ActionType>, i: nat)
    requires store.partitions != [] && i < |rows| && rows[i].isSubAction
    ensures var w := Walk(StartBuild(store), rows[..i], types);
            var w' := Walk(StartBuild(store), rows[..i + 1], types);
            var d := rows[i];
            var last := if d.parentName.Some? then LastNamed(TopRows(rows[..i]), d.parentName.value) else -1;
            && w'.prev == w.prev && w'.store.edges == w.store.edges && w'.mains == w.mains
            && (last >= 0 ==>
                  last < |w.mains| && w'.store == AddNode(w.store, SubNode(d, ChosenType(types, d.name), w.mains[last])))
            && (last < 0 ==> w' == w)
  {
    var b := StartBuild(store);
    assert rows[..i + 1] == rows[..i] + [rows[i]];
    WalkSnoc(b, rows[..i], rows[i], types);
    WalkMainMap(b, rows[..i], types);
  }

  /** Creation fails exactly when no row is top-level, since then there is no partition. */
  lemma CreateActivityFails(rows: seq<Row>, types: map<string, ActionType>)
    ensures CreateActivity(rows, types).Err? <==> TopRows(rows) == []
    ensures CreateActivity(rows, types).Err? ==> CreateActivity(rows, types).message == NoPartitionError
  {
    NoLanesIffNoTopRows(rows);
  }

  /** After the whole creation, the node of every top-level row is in the partition of its actor. */
  lemma CreateActivityLanes(rows: seq<Row>, types: map<string, ActionType>)
    requires TopRows(rows) != []
    ensures CreateActivity(rows, types).Ok?
    ensures var s := CreateActivity(rows, types).value;
            var path := FlowPath(PartitionStore(rows), rows, types);
            && |path| == |TopRows(rows)| + 2
            && forall k :: 0 <= k < |TopRows(rows)| ==>
                 LaneKey(TopRows(rows)[k].actor) in s.members && path[k + 1] in s.members[LaneKey(TopRows(rows)[k].actor)]
  {
    NoLanesIffNoTopRows(rows);
    TopLanesExist(rows);
    BuildLanes(PartitionStore(rows), rows, types);
  }

  /**
   * The exact node list of every partition after nodes and control flows are
   * created: the nodes it held before, then Start for the first partition,
   * then the top-level nodes of the partition in row order, then End for the
   * first partition. No partition is created on the way.
   */
  lemma BuildMembers(store: Store, rows: seq<Row>, types: map<string, ActionType>)
    requires store.partitions != []
    requires forall l :: l in store.partitions ==> l in store.members
    ensures BuildNodes(store, rows, types).Ok?
    ensures var s := BuildNodes(store, rows, types).value;
            var path := FlowPath(store, rows, types);
            var first := store.partitions[0];
            && |path| == |TopRows(rows)| + 2
            && s.members.Keys == store.members.Keys
            && forall l :: l in store.members ==>
                 s.members[l] ==
                   store.members[l] + (if l == first then [path[0]] else []) +
                   (if l in store.partitions then LaneMains(TopRows(rows), path[1..|path| - 1], l) else []) +
                   (if l == first then [path[|path| - 1]] else [])
  {
    var b := StartBuild(store);
    var first := store.partitions[0];
    WalkMembers(b, rows, types);
    var w := Walk(b, rows, types);
    var path := FlowPath(store, rows, types);
    assert path[1..|path| - 1] == w.mains;
    forall l | l in b.store.members
      ensures b.store.members[l] == store.members[l] + (if l == first then [path[0]] else [])
    {
    }
  }

  /** After the whole creation, each partition holds exactly its top-level nodes in row order, with Start and End in the first. */
  lemma CreateActivityMembers(rows: seq<Row>, types: map<string, ActionType>)
    requires TopRows(rows) != []
    ensures CreateActivity(rows, types).Ok?
    ensures var s := CreateActivity(rows, types).value;
            var path := FlowPath(PartitionStore(rows), rows, types);
            var first := Actors(rows)[0];
            && |path| == |TopRows(rows)| + 2
            && (forall l :: l in s.members <==> l in Actors(rows))
            && forall l :: l in s.members ==>
                 s.members[l] ==
                   (if l == first then [path[0]] else []) + LaneMains(TopRows(rows), path[1..|path| - 1], l) +
                   (if l == first then [path[|path| - 1]] else [])
  {
    NoLanesIffNoTopRows(rows);
    var store := PartitionStore(rows);
    assert forall l :: l in store.members <==> l in store.partitions;
    BuildMembers(store, rows, types);
    var s := CreateActivity(rows, types).value;
    var path := FlowPath(store, rows, types);
    var first := store.partitions[0];
    forall l | l in s.members
      ensures s.members[l] ==
              (if l == first then [path[0]] else []) + LaneMains(TopRows(rows), path[1..|path| - 1], l) +
              (if l == first then [path[|path| - 1]] else [])
    {
      assert l in store.members;
      assert store.members[l] == [] && l in store.partitions;
      var st, en := (if l == first then [path[0]] else []), (if l == first then [path[|path| - 1]] else []);
      var lm := LaneMains(TopRows(rows), path[1..|path| - 1], l);
      assert s.members[l] == store.members[l] + st + lm + en;
      assert store.members[l] + st == st;
    }
  }

  /**
   * Lane membership partitions the activity's nodes: every member of a
   * partition is on the flow path, so no sub-action is in any partition;
   * Start and End are in the first partition only; the node of each
   * top-level row is in the partition of its actor and in no other.
   */
  lemma CreateActivityLanesExact(rows: seq<Row>, types: map<string, ActionType>)
    requires TopRows(rows) != []
    ensures CreateActivity(rows, types).Ok?
    ensures var s := CreateActivity(rows, types).value;
            var path := FlowPath(PartitionStore(rows), rows, types);
            var first := Actors(rows)[0];
            && |path| == |TopRows(rows)| + 2
            && (forall l, x :: l in s.members && x in s.members[l] ==> x in path)
            && (forall l :: l in s.members && l != first ==> path[0] !in s.members[l] && path[|path| - 1] !in s.members[l])
            && (forall l, k :: l in s.members && 0 <= k < |TopRows(rows)| && path[k + 1] in s.members[l] ==>
                                 l == LaneKey(TopRows(rows)[k].actor))
  {
    var store := PartitionStore(rows);
    NoLanesIffNoTopRows(rows);
    CreateActivityMembers(rows, types);
    var b := StartBuild(store);
    WalkMainsIncreasing(b, rows, types);
    WalkMainNodes(b, rows, types);
    WalkCount(b, rows, types);
    var w := Walk(b, rows, types);
    var s := CreateActivity(rows, types).value;
    var path := FlowPath(store, rows, types);
    var tops, first := TopRows(rows), Actors(rows)[0];
    var mains := path[1..|path| - 1];
    assert mains == w.mains && path == [path[0]] + mains + [path[|path| - 1]];
    forall l | l in s.members
      ensures forall x :: x in s.members[l] ==> x in path
      ensures l != first ==> path[0] !in s.members[l] && path[|path| - 1] !in s.members[l]
      ensures forall k :: 0 <= k < |tops| && path[k + 1] in s.members[l] ==> l == LaneKey(tops[k].actor)
    {
      LaneListFacts(tops, mains, l, first, path[0], path[|path| - 1], s.members[l]);
    }
  }

  /**
   * A list made of Start (for the first partition), the top-level nodes of
   * partition `l`, and End (for the first partition) holds only nodes of the
   * flow path, holds Start and End only for the first partition, and holds
   * the node of a top-level row only when `l` is that row's partition.
   */
  lemma LaneListFacts(tops: seq<Row>, mains: seq<nat>, l: string, first: string, start: nat, end: nat, list: seq<nat>)
    requires |tops| == |mains|
    requires forall i, j :: 0 <= i < j < |mains| ==> mains[i] < mains[j]
    requires forall k :: 0 <= k < |mains| ==> start < mains[k] < end
    requires list == (if l == first then [start] else []) + LaneMains(tops, mains, l) + (if l == first then [end] else [])
    ensures forall x :: x in list ==> x == start || x == end || x in mains
    ensures l != first ==> start !in list && end !in list
    ensures forall k :: 0 <= k < |tops| && mains[k] in list ==> l == LaneKey(tops[k].actor)
  {
    var lm := LaneMains(tops, mains, l);
    forall x | x in list
      ensures x == start || x == end || x in mains
    {
      LaneMainsFrom(tops, mains, l, x);
    }
    LaneMainsFrom(tops, mains, l, start);
    LaneMainsFrom(tops, mains, l, end);
    forall k | 0 <= k < |tops| && mains[k] in list
      ensures l == LaneKey(tops[k].actor)
    {
      assert mains[k] != start && mains[k] != end;
      assert mains[k] in lm;
      LaneMainsFrom(tops, mains, l, mains[k]);
      var j :| 0 <= j < |tops| && mains[j] == mains[k] && LaneKey(tops[j].actor) == l;
      assert j == k;
    }
  }

  // ---------------------------------------------------------------------------
  // Partition shapes

  /** The corners a lane is fitted to; the far corners are computed in Java `int`. */
  datatype Box = Box(minX: int, minY: int, maxX: int, maxY: int)

  const EmptyBox: Box := Box(IntMax, IntMax, IntMin, IntMin)

  /** The box widened to take in a node rectangle. */
  function Include(b: Box, r: Rect): Box {
    Box(Min(b.minX, r.x), Min(b.minY, r.y), Max(b.maxX, Wrap(r.x + r.width)), Max(b.maxY, Wrap(r.y + r.height)))
  }

  /** The box of the shapes of nodes `ids`; a node without a shape is passed over. */
  function Bounds(ids: seq<nat>, shapes: map<ElementRef, Rect>): Box {
    if ids == [] then
      EmptyBox
    else
      var n := |ids| - 1;
      var b := Bounds(ids[..n], shapes);
      if NodeShape(ids[n]) in shapes then Include(b, shapes[NodeShape(ids[n])]) else b
  }

  /** The node list of a partition. */
  function Members(store: Store, lane: string): seq<nat> {
    if lane in store.members then store.members[lane] else []
  }

  /**
   * The lane rectangle for box `b`, in Java `int`: the box grown by the
   * padding on every side, unless its left edge is `MIN_VALUE`.
   */
  function FitLane(current: Rect, b: Box): Rect {
    if b.minX == IntMin then
      current
    else
      Rect(Wrap(b.minX - Padding), Wrap(b.minY - Padding),
           Wrap(b.maxX - b.minX + 2 * Padding), Wrap(b.maxY - b.minY + 2 * Padding))
  }

  /** The diagram's shapes once the lanes of `lanes` are fitted around their nodes. */
  function FittedShapes(shapes: map<ElementRef, Rect>, store: Store, lanes: set<string>): map<ElementRef, Rect> {
    map e | e in shapes :: if e.LaneShape? && e.lane in lanes then FitLane(shapes[e], Bounds(Members(store, e.lane), shapes)) else shapes[e]
  }

  /** The diagram's shapes once the lanes of `partitions` have the placeholder rectangle. */
  function PlaceholderShapes(shapes: map<ElementRef, Rect>, partitions: seq<string>): map<ElementRef, Rect> {
    map e | e in shapes :: if e.LaneShape? && e.lane in partitions then Placeholder else shapes[e]
  }

  /** The box of nodes whose shapes agree in two diagrams is the same in both. */
  lemma {:induction false} BoundsReadNodesOnly(ids: seq<nat>, s1: map<ElementRef, Rect>, s2: map<ElementRef, Rect>)
    requires forall id: nat :: (NodeShape(id) in s1 <==> NodeShape(id) in s2)
    requires forall id: nat :: NodeShape(id) in s1 ==> s1[NodeShape(id)] == s2[NodeShape(id)]
    ensures Bounds(ids, s1) == Bounds(ids, s2)
  {
    if ids != [] {
      BoundsReadNodesOnly(ids[..|ids| - 1], s1, s2);
    }
  }

  /** Giving the placeholder to one more partition. */
  lemma PlaceholderStep(shapes: map<ElementRef, Rect>, ps: seq<string>, p: string)
    ensures LaneShape(p) in shapes ==>
              PlaceholderShapes(shapes, ps + [p]) == PlaceholderShapes(shapes, ps)[LaneShape(p) := Placeholder]
    ensures LaneShape(p) !in shapes ==> PlaceholderShapes(shapes, ps + [p]) == PlaceholderShapes(shapes, ps)
    ensures PlaceholderShapes(shapes, ps).Keys == shapes.Keys
  {
  }

  /** Fitting lanes changes no node shape and no key. */
  lemma FittedKeepsNodes(shapes: map<ElementRef, Rect>, store: Store, lanes: set<string>)
    ensures FittedShapes(shapes, store, lanes).Keys == shapes.Keys
    ensures forall id: nat :: NodeShape(id) in shapes ==> FittedShapes(shapes, store, lanes)[NodeShape(id)] == shapes[NodeShape(id)]
  {
  }

  /** Fitting one more lane. */
  lemma FittedStep(shapes: map<ElementRef, Rect>, store: Store, lanes: set<string>, lane: string)
    requires LaneShape(lane) in shapes
    ensures FittedShapes(shapes, store, lanes + {lane}) ==
            FittedShapes(shapes, store, lanes)[LaneShape(lane) :=
              FitLane(shapes[LaneShape(lane)], Bounds(Members(store, lane), shapes))]
  {
  }

  class ActivityDiagramCreator {
    /** The partitions whose shape was found on the diagram. */
    var laneShapes: set<string>

    constructor ()
      ensures laneShapes == {}
    {
      laneShapes := {};
    }

    /**
     * Records the partitions that have a shape and gives each of those shapes
     * the placeholder rectangle.
     */
    method CreatePartitionPresentations(partitions: seq<string>, dg: Diagram)
      modifies this, dg
      ensures laneShapes == old(laneShapes) + (set p | p in partitions && LaneShape(p) in old(dg.shapes))
      ensures dg.shapes == PlaceholderShapes(old(dg.shapes), partitions)
    {
      ghost var shapes0 := dg.shapes;
      var i := 0;
      while i < |partitions|
        invariant 0 <= i <= |partitions|
        invariant laneShapes == old(laneShapes) + (set p | p in partitions[..i] && LaneShape(p) in shapes0)
        invariant dg.shapes == PlaceholderShapes(shapes0, partitions[..i])
      {
        var part := partitions[i];
        assert partitions[..i + 1] == partitions[..i] + [part];
        PlaceholderStep(shapes0, partitions[..i], part);
        if LaneShape(part) !in dg.shapes {
          i := i + 1;
          continue;
        }
        laneShapes := laneShapes + {part};
        dg.Reshape(LaneShape(part), Placeholder);
        i := i + 1;
      }
      assert partitions[..i] == partitions;
    }

    /** Fits the shape of every recorded partition around the shapes of its nodes. */
    method FitLaneShapesToContents(store: Store, dg: Diagram)
      requires forall l :: l in laneShapes ==> LaneShape(l) in dg.shapes
      modifies dg
      ensures dg.shapes == FittedShapes(old(dg.shapes), store, laneShapes)
    {
      ghost var shapes0 := dg.shapes;
      var todo := laneShapes;
      ghost var done: set<string> := {};
      while todo != {}
        invariant todo <= laneShapes && done == laneShapes - todo
        invariant dg.shapes == FittedShapes(shapes0, store, done)
        decreases |todo|
      {
        var lane :| lane in todo;
        FittedKeepsNodes(shapes0, store, done);
        FittedStep(shapes0, store, done, lane);
        BoundsReadNodesOnly(Members(store, lane), dg.shapes, shapes0);
        var box := BoundingBox(Members(store, lane), dg);
        if box.minX != IntMin {
          dg.Reshape(LaneShape(lane), FitLane(dg.shapes[LaneShape(lane)], box));
        } else {
          SameUpdate(dg.shapes, LaneShape(lane));
        }
        assert laneShapes - (todo - {lane}) == done + {lane};
        todo := todo - {lane};
        done := done + {lane};
      }
    }
  }

  /** The bounding-box loop of `fitLaneShapesToContents`. */
  method BoundingBox(ids: seq<nat>, dg: Diagram) returns (b: Box)
    ensures b == Bounds(ids, dg.shapes)
  {
    var minX, minY, maxX, maxY := IntMax, IntMax, IntMin, IntMin;
    var i := 0;
    while i < |ids|
      invariant 0 <= i <= |ids|
      invariant Box(minX, minY, maxX, maxY) == Bounds(ids[..i], dg.shapes)
    {
      assert ids[..i + 1][..i] == ids[..i];
      if NodeShape(ids[i]) in dg.shapes {
        var r := dg.shapes[NodeShape(ids[i])];
        minX := Min(minX, r.x);
        minY := Min(minY, r.y);
        maxX := Max(maxX, Wrap(r.x + r.width));
        maxY := Max(maxY, Wrap(r.y + r.height));
      }
      i := i + 1;
    }
    assert ids[..i] == ids;
    b := Box(minX, minY, maxX, maxY);
  }

  // ---------------------------------------------------------------------------
  // Properties of the lane fit

  /** The box lies to the left of and above every node shape it was built from, and reaches past its far corner. */
  lemma {:induction false} BoundsContain(ids: seq<nat>, shapes: map<ElementRef, Rect>)
    ensures var b := Bounds(ids, shapes);
            forall k :: 0 <= k < |ids| && NodeShape(ids[k]) in shapes ==>
              && b.minX <= shapes[NodeShape(ids[k])].x && b.minY <= shapes[NodeShape(ids[k])].y
              && Wrap(shapes[NodeShape(ids[k])].x + shapes[NodeShape(ids[k])].width) <= b.maxX
              && Wrap(shapes[NodeShape(ids[k])].y + shapes[NodeShape(ids[k])].height) <= b.maxY
  {
    if ids != [] {
      var n := |ids| - 1;
      BoundsContain(ids[..n], shapes);
      forall k | 0 <= k < n
        ensures ids[k] == ids[..n][k]
      {
      }
    }
  }

  /** Without a node shape the box keeps its initial corners. */
  lemma {:induction false} BoundsOfNone(ids: seq<nat>, shapes: map<ElementRef, Rect>)
    requires forall k :: 0 <= k < |ids| ==> NodeShape(ids[k]) !in shapes
    ensures Bounds(ids, shapes) == EmptyBox
  {
    if ids != [] {
      var n := |ids| - 1;
      assert forall k :: 0 <= k < n ==> ids[..n][k] == ids[k];
      BoundsOfNone(ids[..n], shapes);
    }
  }

  /**
   * As written, a partition without a node shape is not skipped: its box
   * keeps MAX_VALUE on the left, so it is reshaped to an 81 by 81 square near
   * the far corner of the coordinate range.
   */
  lemma EmptyLaneFit(current: Rect, ids: seq<nat>, shapes: map<ElementRef, Rect>)
    requires forall k :: 0 <= k < |ids| ==> NodeShape(ids[k]) !in shapes
    ensures FitLane(current, Bounds(ids, shapes)) == Rect(IntMax - 40, IntMax - 40, 81, 81)
  {
    BoundsOfNone(ids, shapes);
  }

  /** The left edge of the box is MAX_VALUE or the left edge of one of the node shapes. */
  lemma {:induction false} BoundsMinFromMember(ids: seq<nat>, shapes: map<ElementRef, Rect>)
    ensures var b := Bounds(ids, shapes);
            b.minX == IntMax ||
            exists k :: 0 <= k < |ids| && NodeShape(ids[k]) in shapes && shapes[NodeShape(ids[k])].x == b.minX
  {
    if ids != [] {
      var n := |ids| - 1;
      BoundsMinFromMember(ids[..n], shapes);
      var b := Bounds(ids[..n], shapes);
      if b.minX != IntMax && b.minX == Bounds(ids, shapes).minX {
        var k :| 0 <= k < n && NodeShape(ids[..n][k]) in shapes && shapes[NodeShape(ids[..n][k])].x == b.minX;
        assert ids[..n][k] == ids[k];
      }
    }
  }

  /** The fit keeps the old lane rectangle only when a node shape has its left edge at MIN_VALUE. */
  lemma SkipOnlyAtMinValue(current: Rect, ids: seq<nat>, shapes: map<ElementRef, Rect>)
    requires Bounds(ids, shapes).minX == IntMin
    ensures exists k :: 0 <= k < |ids| && NodeShape(ids[k]) in shapes && shapes[NodeShape(ids[k])].x == IntMin
  {
    BoundsMinFromMember(ids, shapes);
  }

  /** Node rectangles small enough that no computation of the fit leaves the `int` range. */
  const Reach: int := 0x1000_0000

  predicate Modest(r: Rect) {
    -Reach <= r.x <= Reach && -Reach <= r.y <= Reach && 0 <= r.width <= Reach && 0 <= r.height <= Reach
  }

  /** The box of modest node shapes stays well inside the `int` range. */
  lemma {:induction false} BoundsRange(ids: seq<nat>, shapes: map<ElementRef, Rect>)
    requires forall k :: 0 <= k < |ids| && NodeShape(ids[k]) in shapes ==> Modest(shapes[NodeShape(ids[k])])
    requires exists k :: 0 <= k < |ids| && NodeShape(ids[k]) in shapes
    ensures var b := Bounds(ids, shapes);
            -Reach <= b.minX <= Reach && -Reach <= b.minY <= Reach &&
            -Reach <= b.maxX <= 2 * Reach && -Reach <= b.maxY <= 2 * Reach
  {
    var n := |ids| - 1;
    var front := ids[..n];
    assert forall k :: 0 <= k < n ==> front[k] == ids[k];
    if exists k :: 0 <= k < n && NodeShape(front[k]) in shapes {
      BoundsRange(front, shapes);
    } else {
      BoundsOfNone(front, shapes);
    }
  }

  /**
   * For modest node shapes, the fitted lane is the box grown by 40 on every
   * side, so it holds every node shape with a margin of 40.
   */
  lemma LaneContainsMembers(current: Rect, ids: seq<nat>, shapes: map<ElementRef, Rect>)
    requires forall k :: 0 <= k < |ids| && NodeShape(ids[k]) in shapes ==> Modest(shapes[NodeShape(ids[k])])
    requires exists k :: 0 <= k < |ids| && NodeShape(ids[k]) in shapes
    ensures var b := Bounds(ids, shapes);
            var lane := FitLane(current, b);
            && lane == Rect(b.minX - Padding, b.minY - Padding, b.maxX - b.minX + 2 * Padding, b.maxY - b.minY + 2 * Padding)
            && forall k :: 0 <= k < |ids| && NodeShape(ids[k]) in shapes ==>
                 var r := shapes[NodeShape(ids[k])];
                 && lane.x + Padding <= r.x && r.x + r.width + Padding <= lane.x + lane.width
                 && lane.y + Padding <= r.y && r.y + r.height + Padding <= lane.y + lane.height
  {
    BoundsRange(ids, shapes);
    BoundsContain(ids, shapes);
  }
}
