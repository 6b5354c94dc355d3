/**
 * The column layout of an activity diagram: every node shape of the activity
 * is placed in one centred column under a running `y` cursor, action nodes
 * grow with their pin count, and their pins are stacked on the left (inputs)
 * and right (outputs) edges. What the renderer reports back for a reshaped
 * node is a parameter.
 */
module GridLayout {
  import opened JavaInt
  import opened HostModel

  const DiagramWidth: int := 1200
  const ActionWidth: int := 200
  const ActionHeight: int := 80
  const SentinelSize: int := 20
  const PinSize: int := 20
  const PinSpacing: int := 5
  /** Pins a side holds before the node grows, and the growth per extra pin. */
  const PinsBeforeGrowth: int := 3
  const GrowthPerPin: int := 25

  /**
   * The bounds the renderer reports for a node shape reshaped to a rectangle:
   * `afterReshape` right after the reshape, `afterPins` once its pins have
   * been positioned (which may have changed the node's width).
   */
  datatype Renderer = Renderer(afterReshape: Rect -> Rect, afterPins: Rect -> Rect)

  /** The left edge of the column: `(1200 - 200) / 2`. */
  function ColumnLeft(): int {
    Div(DiagramWidth - ActionWidth, 2)
  }

  /** The numbers of input and output pins the layouter collects: none for a node that is not an action. */
  function InCount(n: Node): nat {
    if IsAction(n.kind) then |n.inputs| else 0
  }

  function OutCount(n: Node): nat {
    if IsAction(n.kind) then |n.outputs| else 0
  }

  function NodeWidth(n: Node): int {
    if IsAction(n.kind) then ActionWidth else SentinelSize
  }

  function NodeX(n: Node): int {
    if IsAction(n.kind) then ColumnLeft() else ColumnLeft() + Div(ActionWidth - SentinelSize, 2)
  }

  function NodeHeight(n: Node): int {
    var base := if IsAction(n.kind) then ActionHeight else SentinelSize;
    if InCount(n) > PinsBeforeGrowth || OutCount(n) > PinsBeforeGrowth then
      base + (Max(InCount(n), OutCount(n)) - PinsBeforeGrowth) * GrowthPerPin
    else
      base
  }

  /** The rectangle the layouter gives a node whose top is at `y`. */
  function NodeRect(n: Node, y: int): Rect {
    Rect(NodeX(n), y, NodeWidth(n), NodeHeight(n))
  }

  /** Every node is centred on x = 600, the middle of the 1200 wide diagram. */
  lemma ColumnCentre(n: Node, y: int)
    ensures NodeRect(n, y).x + NodeRect(n, y).width / 2 == DiagramWidth / 2
  {
  }

  /** Pin `i` of the input or the output side of node `id`. */
  function PinRef(id: nat, i: nat, input: bool): ElementRef {
    if input then InPin(id, i) else OutPin(id, i)
  }

  /** The pin shapes of one side of node `id`, in order. */
  function PinRefs(id: nat, count: nat, input: bool): (pins: seq<ElementRef>)
    ensures |pins| == count
    ensures forall i :: 0 <= i < count ==> pins[i] == PinRef(id, i, input)
  {
    if count == 0 then [] else PinRefs(id, count - 1, input) + [PinRef(id, count - 1, input)]
  }

  /** The top of a stack of `count` pins centred on an edge of `a`, in Java `int` division. */
  function StackTop(a: Rect, count: int): int {
    a.y + Div(a.height - (count * PinSize + (count - 1) * PinSpacing), 2)
  }

  /** The shapes after the pins of `pins` that have a shape are stacked from `top` at left edge `x`. */
  function PlaceStack(shapes: map<ElementRef, Rect>, pins: seq<ElementRef>, x: int, top: int): map<ElementRef, Rect> {
    if pins == [] then
      shapes
    else
      var i := |pins| - 1;
      var s := PlaceStack(shapes, pins[..i], x, top);
      if pins[i] in s then s[pins[i] := Rect(x, top + i * (PinSize + PinSpacing), PinSize, PinSize)] else s
  }

  /** What `positionPins` does for an action whose rectangle is `a`. */
  function PinsPlaced(shapes: map<ElementRef, Rect>, ins: seq<ElementRef>, outs: seq<ElementRef>, a: Rect): map<ElementRef, Rect> {
    var s := PlaceStack(shapes, ins, a.x - PinSize / 2, StackTop(a, |ins|));
    PlaceStack(s, outs, a.x + a.width - PinSize / 2, StackTop(a, |outs|))
  }

  /**
   * What the layout does for node `id` with the cursor at `y`: the new shapes
   * and the new cursor. Reshaping a node stores the requested rectangle;
   * `render` says what the renderer reports as its bounds when they are read.
   */
  function LayoutNode(shapes: map<ElementRef, Rect>, id: nat, n: Node, y: int, yStep: int,
                      render: Renderer): (map<ElementRef, Rect>, int)
  {
    if NodeShape(id) !in shapes then
      (shapes, y)
    else
      var rect := NodeRect(n, y);
      var s1 := shapes[NodeShape(id) := rect];
      var ins, outs := PinRefs(id, InCount(n), true), PinRefs(id, OutCount(n), false);
      var s2 :=
        if ins == [] && outs == [] then
          s1
        else
          var actual := render.afterReshape(rect);
          var placed := PinsPlaced(s1, ins, outs, actual);
          if render.afterPins(rect).width != NodeWidth(n) then PinsPlaced(placed[NodeShape(id) := rect], ins, outs, rect) else placed;
      (s2, y + NodeHeight(n) + yStep)
  }

  /** The layout of the nodes `ids` in order, from cursor `y`. */
  function LayoutFrom(nodes: seq<Node>, ids: seq<nat>, shapes: map<ElementRef, Rect>, y: int, yStep: int,
                      render: Renderer): map<ElementRef, Rect>
    requires forall k :: 0 <= k < |ids| ==> ids[k] < |nodes|
  {
    if ids == [] then
      shapes
    else
      var next := LayoutNode(shapes, ids[0], nodes[ids[0]], y, yStep, render);
      LayoutFrom(nodes, ids[1..], next.0, next.1, yStep, render)
  }

  /** What `layout` does to the diagram of an activity whose store is `store`. */
  function LayoutShapes(store: Store, shapes: map<ElementRef, Rect>, startY: int, yStep: int,
                        render: Renderer): map<ElementRef, Rect>
  {
    LayoutFrom(store.nodes, ActivityNodes(store.nodes), shapes, startY, yStep, render)
  }

  /** Stacking pins only moves shapes of `pins`: no key appears or disappears, no other shape moves. */
  lemma {:induction false} PlaceStackKeeps(shapes: map<ElementRef, Rect>, pins: seq<ElementRef>, x: int, top: int)
    ensures PlaceStack(shapes, pins, x, top).Keys == shapes.Keys
    ensures forall e :: e in shapes && e !in pins ==> PlaceStack(shapes, pins, x, top)[e] == shapes[e]
  {
    if pins != [] {
      PlaceStackKeeps(shapes, pins[..|pins| - 1], x, top);
    }
  }

  /** Placing pins keeps the diagram's keys and every shape that is not one of the pins. */
  lemma PinsPlacedKeeps(shapes: map<ElementRef, Rect>, ins: seq<ElementRef>, outs: seq<ElementRef>, a: Rect)
    ensures PinsPlaced(shapes, ins, outs, a).Keys == shapes.Keys
    ensures forall e :: e in shapes && e !in ins && e !in outs ==> PinsPlaced(shapes, ins, outs, a)[e] == shapes[e]
  {
    var s := PlaceStack(shapes, ins, a.x - PinSize / 2, StackTop(a, |ins|));
    PlaceStackKeeps(shapes, ins, a.x - PinSize / 2, StackTop(a, |ins|));
    PlaceStackKeeps(s, outs, a.x + a.width - PinSize / 2, StackTop(a, |outs|));
  }

  // ---------------------------------------------------------------------------
  // The layouter's loops

  /** Stacks the pins of `pins` that have a shape, from `top`, at left edge `x`. */
  method PlacePins(dg: Diagram, pins: seq<ElementRef>, x: int, top: int)
    modifies dg
    ensures dg.shapes == PlaceStack(old(dg.shapes), pins, x, top)
  {
    ghost var shapes0 := dg.shapes;
    var i := 0;
    while i < |pins|
      invariant 0 <= i <= |pins|
      invariant dg.shapes == PlaceStack(shapes0, pins[..i], x, top)
    {
      assert pins[..i + 1][..i] == pins[..i];
      if pins[i] in dg.shapes {
        var pinY := top + i * (PinSize + PinSpacing);
        dg.Reshape(pins[i], Rect(x, pinY, PinSize, PinSize));
      }
      i := i + 1;
    }
    assert pins[..i] == pins;
  }

  method PositionPins(dg: Diagram, ins: seq<ElementRef>, outs: seq<ElementRef>,
                      actionX: int, actionY: int, actionWidth: int, actionHeight: int)
    modifies dg
    ensures dg.shapes == PinsPlaced(old(dg.shapes), ins, outs, Rect(actionX, actionY, actionWidth, actionHeight))
  {
    var a := Rect(actionX, actionY, actionWidth, actionHeight);
    var totalInputHeight := |ins| * PinSize + (|ins| - 1) * PinSpacing;
    var inputPinStartY := actionY + Div(actionHeight - totalInputHeight, 2);
    PlacePins(dg, ins, actionX - PinSize / 2, inputPinStartY);
    var totalOutputHeight := |outs| * PinSize + (|outs| - 1) * PinSpacing;
    var outputPinStartY := actionY + Div(actionHeight - totalOutputHeight, 2);
    PlacePins(dg, outs, actionX + actionWidth - PinSize / 2, outputPinStartY);
  }

  /** Collects the pin shapes of one side of node `id`. */
  method CollectPins(id: nat, count: nat, input: bool) returns (pins: seq<ElementRef>)
    ensures pins == PinRefs(id, count, input)
  {
    pins := [];
    var i := 0;
    while i < count
      invariant 0 <= i <= count
      invariant pins == PinRefs(id, i, input)
    {
      pins := pins + [PinRef(id, i, input)];
      i := i + 1;
    }
  }

  /** One pass of the node loop of `layout`. */
  method LayOutNode(dg: Diagram, id: nat, n: Node, y: int, yStep: int, render: Renderer) returns (y': int)
    modifies dg
    ensures (dg.shapes, y') == LayoutNode(old(dg.shapes), id, n, y, yStep, render)
  {
    y' := y;
    if NodeShape(id) !in dg.shapes {
      return;
    }
    var width := ActionWidth;
    var height := ActionHeight;
    var nodeX := ColumnLeft();
    if !IsAction(n.kind) {
      width := SentinelSize;
      height := SentinelSize;
      nodeX := ColumnLeft() + Div(ActionWidth - width, 2);
    }
    var inputPins := CollectPins(id, InCount(n), true);
    var outputPins := CollectPins(id, OutCount(n), false);
    if |inputPins| > PinsBeforeGrowth || |outputPins| > PinsBeforeGrowth {
      var heightChange := (Max(|inputPins|, |outputPins|) - PinsBeforeGrowth) * GrowthPerPin;
      height := height + heightChange;
    }
    var rect := Rect(nodeX, y, width, height);
    dg.Reshape(NodeShape(id), rect);
    if inputPins != [] || outputPins != [] {
      var actualBounds := render.afterReshape(rect);
      PinsPlacedKeeps(dg.shapes, inputPins, outputPins, actualBounds);
      PositionPins(dg, inputPins, outputPins, actualBounds.x, actualBounds.y, actualBounds.width, actualBounds.height);
      var currentBounds := render.afterPins(rect);
      if currentBounds.width != width {
        var fixedRect := Rect(nodeX, y, width, height);
        dg.Reshape(NodeShape(id), fixedRect);
        PositionPins(dg, inputPins, outputPins, nodeX, y, width, height);
      }
    }
    y' := y + height + yStep;
  }

  /** `columnX` is taken but not used: the column is always centred in a 1200 wide diagram. */
  method Layout(store: Store, dg: Diagram, columnX: int, startY: int, yStep: int, render: Renderer)
    modifies dg
    ensures dg.shapes == LayoutShapes(store, old(dg.shapes), startY, yStep, render)
  {
    var ids := ActivityNodes(store.nodes);
    var y := startY;
    var i := 0;
    while i < |ids|
      invariant 0 <= i <= |ids|
      invariant LayoutFrom(store.nodes, ids[i..], dg.shapes, y, yStep, render) ==
                LayoutShapes(store, old(dg.shapes), startY, yStep, render)
    {
      assert ids[i..][1..] == ids[i + 1..];
      y := LayOutNode(dg, ids[i], store.nodes[ids[i]], y, yStep, render);
      i := i + 1;
    }
  }

  // ---------------------------------------------------------------------------
  // Properties

  /**
   * Actions are 200 wide at x = 500 and 80 high plus 25 per pin beyond three
   * on the fuller side; every other node is a 20 by 20 square at x = 590.
   */
  lemma NodeRectFormula(n: Node, y: int)
    ensures IsAction(n.kind) ==>
              NodeRect(n, y) == Rect(500, y, 200, 80 + (if |n.inputs| > 3 || |n.outputs| > 3
                                                          then (Max(|n.inputs|, |n.outputs|) - 3) * 25 else 0))
    ensures !IsAction(n.kind) ==> NodeRect(n, y) == Rect(590, y, 20, 20)
  {
  }

  /** Input pin `i` of an action with rectangle `a` and `count` input pins. */
  function InputPinRect(a: Rect, count: int, i: int): Rect {
    Rect(a.x - PinSize / 2, StackTop(a, count) + i * (PinSize + PinSpacing), PinSize, PinSize)
  }

  /** Output pin `i` of an action with rectangle `a` and `count` output pins. */
  function OutputPinRect(a: Rect, count: int, i: int): Rect {
    Rect(a.x + a.width - PinSize / 2, StackTop(a, count) + i * (PinSize + PinSpacing), PinSize, PinSize)
  }

  /**
   * Input pin `i` of `n` is the 20 by 20 square at (ax - 10, s + 25 i) and
   * output pin `i` the one at (ax + aw - 10, s + 25 i), where the stack top
   * s = ay + (ah - (25 n - 5)) / 2 is rounded toward zero.
   */
  lemma PinRectFormula(a: Rect, count: int, i: int)
    ensures var s := a.y + Div(a.height - (25 * count - 5), 2);
            && InputPinRect(a, count, i) == Rect(a.x - 10, s + 25 * i, 20, 20)
            && OutputPinRect(a, count, i) == Rect(a.x + a.width - 10, s + 25 * i, 20, 20)
  {
  }

  /** Stacking pins neither adds nor removes a key, and leaves every shape that is not one of the pins. */
  lemma {:induction false} StackKey(shapes: map<ElementRef, Rect>, pins: seq<ElementRef>, x: int, top: int, e: ElementRef)
    ensures (e in PlaceStack(shapes, pins, x, top)) == (e in shapes)
    ensures e in shapes && e !in pins ==> PlaceStack(shapes, pins, x, top)[e] == shapes[e]
  {
    if pins != [] {
      StackKey(shapes, pins[..|pins| - 1], x, top, e);
      if e !in pins {
        assert e !in pins[..|pins| - 1];
      }
    }
  }

  /** Pin `i` of one side of node `id`, when it has a shape, ends `i` pin pitches below `top`. */
  lemma {:induction false} SideKey(shapes: map<ElementRef, Rect>, id: nat, count: nat, input: bool, x: int, top: int, i: nat)
    requires i < count
    ensures var p := PinRef(id, i, input);
            p in shapes ==> p in PlaceStack(shapes, PinRefs(id, count, input), x, top) &&
                            PlaceStack(shapes, PinRefs(id, count, input), x, top)[p] ==
                              Rect(x, top + i * (PinSize + PinSpacing), PinSize, PinSize)
  {
    var pins := PinRefs(id, count, input);
    var n := count - 1;
    var front := PinRefs(id, n, input);
    var p, last := PinRef(id, i, input), PinRef(id, n, input);
    assert pins == front + [last];
    assert pins[..n] == front;
    var s := PlaceStack(shapes, front, x, top);
    assert PlaceStack(shapes, pins, x, top) ==
           if last in s then s[last := Rect(x, top + n * (PinSize + PinSpacing), PinSize, PinSize)] else s;
    StackKey(shapes, front, x, top, p);
    if i < n {
      SideKey(shapes, id, n, input, x, top, i);
      assert p != last;
    }
  }

  /** `positionPins` puts every input pin of node `id` that has a shape on the left edge and every output pin on the right. */
  lemma PinsPlacedAt(shapes: map<ElementRef, Rect>, id: nat, nIn: nat, nOut: nat, a: Rect)
    ensures var r := PinsPlaced(shapes, PinRefs(id, nIn, true), PinRefs(id, nOut, false), a);
            && (forall i :: 0 <= i < nIn && InPin(id, i) in shapes ==>
                              InPin(id, i) in r && r[InPin(id, i)] == InputPinRect(a, nIn, i))
            && (forall i :: 0 <= i < nOut && OutPin(id, i) in shapes ==>
                              OutPin(id, i) in r && r[OutPin(id, i)] == OutputPinRect(a, nOut, i))
  {
    var ins, outs := PinRefs(id, nIn, true), PinRefs(id, nOut, false);
    var xIn, topIn := a.x - PinSize / 2, StackTop(a, nIn);
    var xOut, topOut := a.x + a.width - PinSize / 2, StackTop(a, nOut);
    var s := PlaceStack(shapes, ins, xIn, topIn);
    forall i | 0 <= i < nIn && InPin(id, i) in shapes
      ensures InPin(id, i) in PinsPlaced(shapes, ins, outs, a)
      ensures PinsPlaced(shapes, ins, outs, a)[InPin(id, i)] == InputPinRect(a, nIn, i)
    {
      SideKey(shapes, id, nIn, true, xIn, topIn, i);
      StackKey(shapes, ins, xIn, topIn, InPin(id, i));
      StackKey(s, outs, xOut, topOut, InPin(id, i));
    }
    forall i | 0 <= i < nOut && OutPin(id, i) in shapes
      ensures OutPin(id, i) in PinsPlaced(shapes, ins, outs, a)
      ensures PinsPlaced(shapes, ins, outs, a)[OutPin(id, i)] == OutputPinRect(a, nOut, i)
    {
      StackKey(shapes, ins, xIn, topIn, OutPin(id, i));
      SideKey(s, id, nOut, false, xOut, topOut, i);
      StackKey(s, outs, xOut, topOut, OutPin(id, i));
    }
  }

  /**
   * With the height the layout gives an action, each of its pin stacks is at
   * least 5 below the top and ends at least 5 above the bottom.
   */
  lemma PinStackInside(n: Node, y: int, count: nat)
    requires count == InCount(n) || count == OutCount(n)
    requires count > 0
    ensures var a := NodeRect(n, y);
            a.y + 5 <= StackTop(a, count) && StackTop(a, count) + 25 * count - 5 + 5 <= a.y + a.height
  {
    var a := NodeRect(n, y);
    var gap := a.height - (count * PinSize + (count - 1) * PinSpacing);
    assert gap >= 10;
  }

  /** The shapes of node `id` and of its pins. */
  predicate Owned(e: ElementRef, id: nat) {
    e == NodeShape(id) || (e.InPin? && e.node == id) || (e.OutPin? && e.node == id)
  }

  /**
   * The rectangle the pins of `n` end up stacked against when its top is at
   * `y`: the bounds first read back, unless the width read after the pins
   * differs, in which case the node is forced back and the pins are placed
   * again against its intended rectangle.
   */
  function Frame(n: Node, y: int, render: Renderer): Rect {
    var rect := NodeRect(n, y);
    if render.afterPins(rect).width != NodeWidth(n) then rect else render.afterReshape(rect)
  }

  /** A shape that is not a pin of node `id` is on neither of its pin lists. */
  lemma NotOnSide(id: nat, count: nat, input: bool, e: ElementRef)
    requires !Owned(e, id)
    ensures e !in PinRefs(id, count, input)
  {
    forall i | 0 <= i < count
      ensures PinRefs(id, count, input)[i] != e
    {
    }
  }

  /** Placing pins keeps the keys, and the shape `e` when it is not one of the pins. */
  lemma PinsPlacedKey(shapes: map<ElementRef, Rect>, ins: seq<ElementRef>, outs: seq<ElementRef>, a: Rect, e: ElementRef)
    ensures (e in PinsPlaced(shapes, ins, outs, a)) == (e in shapes)
    ensures e in shapes && e !in ins && e !in outs ==> PinsPlaced(shapes, ins, outs, a)[e] == shapes[e]
  {
    var s := PlaceStack(shapes, ins, a.x - PinSize / 2, StackTop(a, |ins|));
    StackKey(shapes, ins, a.x - PinSize / 2, StackTop(a, |ins|), e);
    StackKey(s, outs, a.x + a.width - PinSize / 2, StackTop(a, |outs|), e);
  }

  /** One node keeps the diagram's keys and every shape that is not its own or one of its pins. */
  lemma LayoutNodeKey(shapes: map<ElementRef, Rect>, id: nat, n: Node, y: int, yStep: int, render: Renderer,
                      e: ElementRef)
    ensures var s := LayoutNode(shapes, id, n, y, yStep, render).0;
            && (e in s) == (e in shapes)
            && (e in shapes && !Owned(e, id) ==> s[e] == shapes[e])
  {
    if NodeShape(id) in shapes {
      var rect := NodeRect(n, y);
      var s1 := shapes[NodeShape(id) := rect];
      var ins, outs := PinRefs(id, InCount(n), true), PinRefs(id, OutCount(n), false);
      if ins != [] || outs != [] {
        var actual := render.afterReshape(rect);
        var placed := PinsPlaced(s1, ins, outs, actual);
        PinsPlacedKey(s1, ins, outs, actual, e);
        PinsPlacedKey(placed[NodeShape(id) := rect], ins, outs, rect, e);
        if !Owned(e, id) {
          NotOnSide(id, InCount(n), true, e);
          NotOnSide(id, OutCount(n), false, e);
        }
      }
    }
  }

  /**
   * One node: a shapeless node changes nothing and does not move the cursor.
   * A node with a shape gets its rectangle at the cursor, which then moves
   * down by its height plus `yStep`. Its pins are stacked against the
   * bounds read right after the reshape, or against the intended rectangle
   * when the width read after the pins are placed differs; without pins,
   * nothing else changes and nothing is read back.
   */
  lemma LayoutNodeEffect(shapes: map<ElementRef, Rect>, id: nat, n: Node, y: int, yStep: int, render: Renderer)
    ensures var (s, y') := LayoutNode(shapes, id, n, y, yStep, render);
            && (NodeShape(id) !in shapes ==> s == shapes && y' == y)
            && (NodeShape(id) in shapes ==>
                  && y' == y + NodeHeight(n) + yStep
                  && s.Keys == shapes.Keys && s[NodeShape(id)] == NodeRect(n, y)
                  && (InCount(n) == 0 && OutCount(n) == 0 ==> s == shapes[NodeShape(id) := NodeRect(n, y)])
                  && (forall i :: 0 <= i < InCount(n) && InPin(id, i) in shapes ==>
                                    s[InPin(id, i)] == InputPinRect(Frame(n, y, render), InCount(n), i))
                  && (forall i :: 0 <= i < OutCount(n) && OutPin(id, i) in shapes ==>
                                    s[OutPin(id, i)] == OutputPinRect(Frame(n, y, render), OutCount(n), i)))
  {
    if NodeShape(id) in shapes {
      var rect := NodeRect(n, y);
      var s1 := shapes[NodeShape(id) := rect];
      var ins, outs := PinRefs(id, InCount(n), true), PinRefs(id, OutCount(n), false);
      if ins != [] || outs != [] {
        var actual := render.afterReshape(rect);
        var placed := PinsPlaced(s1, ins, outs, actual);
        PinsPlacedKeeps(s1, ins, outs, actual);
        PinsPlacedAt(s1, id, InCount(n), OutCount(n), actual);
        if render.afterPins(rect).width != NodeWidth(n) {
          PinsPlacedKeeps(placed[NodeShape(id) := rect], ins, outs, rect);
          PinsPlacedAt(placed[NodeShape(id) := rect], id, InCount(n), OutCount(n), rect);
        }
      }
    }
  }

  /** How far the cursor moves over `ids`: each node with a shape adds its height and `yStep`. */
  function Advance(nodes: seq<Node>, ids: seq<nat>, keys: set<ElementRef>, yStep: int): int
    requires forall k :: 0 <= k < |ids| ==> ids[k] < |nodes|
  {
    if ids == [] then
      0
    else
      (if NodeShape(ids[0]) in keys then NodeHeight(nodes[ids[0]]) + yStep else 0) + Advance(nodes, ids[1..], keys, yStep)
  }

  /** The layout of `ids` keeps the diagram's keys, and every shape that belongs to none of the nodes `ids`. */
  lemma {:induction false} LayoutFromKey(nodes: seq<Node>, ids: seq<nat>, shapes: map<ElementRef, Rect>, y: int,
                                         yStep: int, render: Renderer, e: ElementRef)
    requires forall k :: 0 <= k < |ids| ==> ids[k] < |nodes|
    ensures var r := LayoutFrom(nodes, ids, shapes, y, yStep, render);
            && (e in r) == (e in shapes)
            && (e in shapes && (forall k :: 0 <= k < |ids| ==> !Owned(e, ids[k])) ==> r[e] == shapes[e])
  {
    if ids != [] {
      var next := LayoutNode(shapes, ids[0], nodes[ids[0]], y, yStep, render);
      LayoutNodeKey(shapes, ids[0], nodes[ids[0]], y, yStep, render, e);
      LayoutFromKey(nodes, ids[1..], next.0, next.1, yStep, render, e);
      if e in shapes && (forall k :: 0 <= k < |ids| ==> !Owned(e, ids[k])) {
        assert !Owned(e, ids[0]);
        forall k | 0 <= k < |ids| - 1
          ensures !Owned(e, ids[1..][k])
        {
          assert ids[1..][k] == ids[k + 1];
        }
      }
    }
  }

  /** The nodes of `ids` are distinct. */
  predicate Distinct(ids: seq<nat>) {
    forall i, j :: 0 <= i < j < |ids| ==> ids[i] != ids[j]
  }

  /**
   * In `r`, node `id` (which is `n`) has its rectangle with top `top`, and
   * each of its pins that is among `keys` is stacked against its frame there.
   */
  predicate Placed(r: map<ElementRef, Rect>, keys: set<ElementRef>, id: nat, n: Node, top: int, render: Renderer) {
    && NodeShape(id) in r && r[NodeShape(id)] == NodeRect(n, top)
    && (forall i :: 0 <= i < InCount(n) && InPin(id, i) in keys ==>
                      InPin(id, i) in r && r[InPin(id, i)] == InputPinRect(Frame(n, top, render), InCount(n), i))
    && (forall i :: 0 <= i < OutCount(n) && OutPin(id, i) in keys ==>
                      OutPin(id, i) in r && r[OutPin(id, i)] == OutputPinRect(Frame(n, top, render), OutCount(n), i))
  }

  /** With distinct ids, the nodes after the first leave the first node's shape and pins as it placed them. */
  lemma FirstSettled(nodes: seq<Node>, ids: seq<nat>, shapes: map<ElementRef, Rect>, y: int,
                     yStep: int, render: Renderer, e: ElementRef)
    requires forall j :: 0 <= j < |ids| ==> ids[j] < |nodes|
    requires Distinct(ids) && ids != [] && Owned(e, ids[0])
    ensures var next := LayoutNode(shapes, ids[0], nodes[ids[0]], y, yStep, render);
            var r := LayoutFrom(nodes, ids, shapes, y, yStep, render);
            (e in r) == (e in next.0) && (e in next.0 ==> r[e] == next.0[e])
  {
    var next := LayoutNode(shapes, ids[0], nodes[ids[0]], y, yStep, render);
    var rest := ids[1..];
    LayoutFromKey(nodes, rest, next.0, next.1, yStep, render, e);
    forall j | 0 <= j < |rest|
      ensures !Owned(e, rest[j])
    {
      assert rest[j] == ids[j + 1];
    }
  }

  /** The first node, when it has a shape, ends at the starting cursor, with its pins against its frame there. */
  lemma FirstPlaced(nodes: seq<Node>, ids: seq<nat>, shapes: map<ElementRef, Rect>, y: int,
                    yStep: int, render: Renderer)
    requires forall j :: 0 <= j < |ids| ==> ids[j] < |nodes|
    requires Distinct(ids) && ids != [] && NodeShape(ids[0]) in shapes
    ensures Placed(LayoutFrom(nodes, ids, shapes, y, yStep, render), shapes.Keys, ids[0], nodes[ids[0]], y, render)
  {
    var id, n := ids[0], nodes[ids[0]];
    var r := LayoutFrom(nodes, ids, shapes, y, yStep, render);
    LayoutNodeEffect(shapes, id, n, y, yStep, render);
    FirstSettled(nodes, ids, shapes, y, yStep, render, NodeShape(id));
    forall i | 0 <= i < InCount(n) && InPin(id, i) in shapes
      ensures InPin(id, i) in r && r[InPin(id, i)] == InputPinRect(Frame(n, y, render), InCount(n), i)
    {
      FirstSettled(nodes, ids, shapes, y, yStep, render, InPin(id, i));
    }
    forall i | 0 <= i < OutCount(n) && OutPin(id, i) in shapes
      ensures OutPin(id, i) in r && r[OutPin(id, i)] == OutputPinRect(Frame(n, y, render), OutCount(n), i)
    {
      FirstSettled(nodes, ids, shapes, y, yStep, render, OutPin(id, i));
    }
  }

  /**
   * Node `ids[k]`, when it has a shape, ends at the cursor after the earlier
   * nodes, and its pins end stacked against its frame there.
   */
  lemma {:induction false} LayoutFromAt(nodes: seq<Node>, ids: seq<nat>, shapes: map<ElementRef, Rect>, y: int,
                                        yStep: int, render: Renderer, k: nat)
    requires forall j :: 0 <= j < |ids| ==> ids[j] < |nodes|
    requires Distinct(ids) && k < |ids| && NodeShape(ids[k]) in shapes
    ensures Placed(LayoutFrom(nodes, ids, shapes, y, yStep, render), shapes.Keys, ids[k], nodes[ids[k]],
                   y + Advance(nodes, ids[..k], shapes.Keys, yStep), render)
  {
    if k == 0 {
      assert Advance(nodes, ids[..k], shapes.Keys, yStep) == 0;
      FirstPlaced(nodes, ids, shapes, y, yStep, render);
    } else {
      var next := LayoutNode(shapes, ids[0], nodes[ids[0]], y, yStep, render);
      var rest := ids[1..];
      assert LayoutFrom(nodes, ids, shapes, y, yStep, render) == LayoutFrom(nodes, rest, next.0, next.1, yStep, render);
      LayoutNodeEffect(shapes, ids[0], nodes[ids[0]], y, yStep, render);
      assert next.0.Keys == shapes.Keys;
      assert rest[k - 1] == ids[k];
      forall i, j | 0 <= i < j < |rest|
        ensures rest[i] != rest[j]
      {
        assert rest[i] == ids[i + 1] && rest[j] == ids[j + 1];
      }
      LayoutFromAt(nodes, rest, next.0, next.1, yStep, render, k - 1);
      assert ids[..k][1..] == rest[..k - 1];
      assert y + Advance(nodes, ids[..k], shapes.Keys, yStep) == next.1 + Advance(nodes, rest[..k - 1], next.0.Keys, yStep);
    }
  }

  /** Node `ids[k]` of the activity ends at `startY` plus the advance over the activity's earlier nodes. */
  lemma LayoutShapesAt(store: Store, shapes: map<ElementRef, Rect>, startY: int, yStep: int, render: Renderer, k: nat)
    requires k < |ActivityNodes(store.nodes)| && NodeShape(ActivityNodes(store.nodes)[k]) in shapes
    ensures var ids := ActivityNodes(store.nodes);
            Placed(LayoutShapes(store, shapes, startY, yStep, render), shapes.Keys, ids[k], store.nodes[ids[k]],
                   startY + Advance(store.nodes, ids[..k], shapes.Keys, yStep), render)
  {
    ActivityNodesIncreasing(store.nodes);
    LayoutFromAt(store.nodes, ActivityNodes(store.nodes), shapes, startY, yStep, render, k);
  }

  /** The layout keeps the diagram's keys, and every shape of a node that is not the activity's own, with its pins. */
  lemma LayoutShapesKeeps(store: Store, shapes: map<ElementRef, Rect>, startY: int, yStep: int, render: Renderer)
    ensures var r := LayoutShapes(store, shapes, startY, yStep, render);
            && r.Keys == shapes.Keys
            && (forall e :: e in shapes && e.LaneShape? ==> r[e] == shapes[e])
            && (forall e :: e in shapes && (e.NodeShape? || e.InPin? || e.OutPin?) ==>
                              var id := if e.NodeShape? then e.id else e.node;
                              id < |store.nodes| && store.nodes[id].owner != InActivity ==> r[e] == shapes[e])
  {
    var ids := ActivityNodes(store.nodes);
    var r := LayoutShapes(store, shapes, startY, yStep, render);
    forall e
      ensures (e in r) == (e in shapes)
    {
      LayoutFromKey(store.nodes, ids, shapes, startY, yStep, render, e);
    }
    forall e | e in shapes && (e.LaneShape? || ((e.NodeShape? || e.InPin? || e.OutPin?) &&
                                (var id := if e.NodeShape? then e.id else e.node;
                                 id < |store.nodes| && store.nodes[id].owner != InActivity)))
      ensures r[e] == shapes[e]
    {
      LayoutFromKey(store.nodes, ids, shapes, startY, yStep, render, e);
    }
  }

  /** The advance over a concatenation is the sum of the advances. */
  lemma {:induction false} AdvanceAppend(nodes: seq<Node>, a: seq<nat>, b: seq<nat>, keys: set<ElementRef>, yStep: int)
    requires forall k :: 0 <= k < |a| ==> a[k] < |nodes|
    requires forall k :: 0 <= k < |b| ==> b[k] < |nodes|
    ensures forall k :: 0 <= k < |a + b| ==> (a + b)[k] < |nodes|
    ensures Advance(nodes, a + b, keys, yStep) == Advance(nodes, a, keys, yStep) + Advance(nodes, b, keys, yStep)
  {
    if a == [] {
      assert a + b == b;
    } else {
      assert (a + b)[1..] == a[1..] + b;
      AdvanceAppend(nodes, a[1..], b, keys, yStep);
    }
  }

  /** With a non-negative step the cursor never moves up. */
  lemma {:induction false} AdvanceNonNegative(nodes: seq<Node>, ids: seq<nat>, keys: set<ElementRef>, yStep: int)
    requires forall k :: 0 <= k < |ids| ==> ids[k] < |nodes|
    requires yStep >= 0
    ensures Advance(nodes, ids, keys, yStep) >= 0
  {
    if ids != [] {
      AdvanceNonNegative(nodes, ids[1..], keys, yStep);
    }
  }

  /**
   * With a non-negative `yStep`, of two nodes the layout places, the later one
   * starts at least `yStep` below the bottom of the earlier one, in the same column.
   */
  lemma NoOverlap(store: Store, shapes: map<ElementRef, Rect>, startY: int, yStep: int, render: Renderer, j: nat, k: nat)
    requires yStep >= 0 && j < k < |ActivityNodes(store.nodes)|
    requires NodeShape(ActivityNodes(store.nodes)[j]) in shapes && NodeShape(ActivityNodes(store.nodes)[k]) in shapes
    ensures var ids, r := ActivityNodes(store.nodes), LayoutShapes(store, shapes, startY, yStep, render);
            && NodeShape(ids[j]) in r && NodeShape(ids[k]) in r
            && var upper, lower := r[NodeShape(ids[j])], r[NodeShape(ids[k])];
            && upper.y + upper.height + yStep <= lower.y
            && upper.x + upper.width / 2 == lower.x + lower.width / 2 == DiagramWidth / 2
  {
    var ids := ActivityNodes(store.nodes);
    LayoutShapesAt(store, shapes, startY, yStep, render, j);
    LayoutShapesAt(store, shapes, startY, yStep, render, k);
    assert ids[..k] == ids[..j] + ([ids[j]] + ids[j + 1..k]);
    AdvanceAppend(store.nodes, [ids[j]], ids[j + 1..k], shapes.Keys, yStep);
    AdvanceAppend(store.nodes, ids[..j], [ids[j]] + ids[j + 1..k], shapes.Keys, yStep);
    AdvanceNonNegative(store.nodes, ids[j + 1..k], shapes.Keys, yStep);
    assert Advance(store.nodes, [ids[j]], shapes.Keys, yStep) == NodeHeight(store.nodes[ids[j]]) + yStep;
    ColumnCentre(store.nodes[ids[j]], startY + Advance(store.nodes, ids[..j], shapes.Keys, yStep));
    ColumnCentre(store.nodes[ids[k]], startY + Advance(store.nodes, ids[..k], shapes.Keys, yStep));
  }
}
