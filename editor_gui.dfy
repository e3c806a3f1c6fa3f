/** The scene view of a selected path: for every node, the dotted connection
    to the next waypoint, the dotted line between the node's outgoing control
    point and the next node's incoming control point, and the node's own
    handles. Which node comes next, and which handles are shown, is index
    arithmetic over the node count and the closed flag. */
module NodeEditorGui {
  import opened Vectors
  import opened Options
  import opened Nodes
  import Paths

  /** `DetermineNextNode`: the successor of node `i` among `count` nodes;
      the last node wraps round to node 0 on a closed path and has none on an
      open one. */
  function NextNode(count: nat, closed: bool, i: nat): (r: Option<nat>)
    requires i < count
    ensures r.Some? ==> r.value < count
  {
    var lastNodeIndex := count - 1;
    if i < lastNodeIndex then Some(i + 1)
    else if closed then Some(0)
    else None
  }

  /** Whether node `i`'s incoming control handle is shown. */
  function DrawIncoming(closed: bool, i: nat): (r: bool)
    ensures closed ==> r
    ensures !closed ==> (r <==> i != 0)
  {
    i > 0 || closed
  }

  /** Whether node `i`'s outgoing control handle is shown. */
  function DrawOutgoing(count: nat, closed: bool, i: nat): (r: bool)
    ensures closed ==> r
    ensures !closed ==> (r <==> i + 1 < count)
  {
    i < count - 1 || closed
  }

  /** Whether the waypoint-to-waypoint connection from node `i` may be drawn:
      the closing one (from the last node) only on paths of more than two
      nodes. */
  function ShouldDrawConnection(count: nat, i: nat): (r: bool)
    ensures count > 2 ==> r
    ensures count <= 2 ==> (r <==> i + 1 < count)
  {
    i < count - 1 || count > 2
  }

  /** Adjacency is the successor modulo the node count on a closed path, and
      the plain successor, where there is one, on an open path. */
  lemma NextIsWrappedSuccessor(count: nat, closed: bool, i: nat)
    requires i < count
    ensures closed ==> NextNode(count, closed, i) == Some((i + 1) % count)
    ensures !closed ==> (NextNode(count, closed, i).Some? <==> i + 1 < count)
    ensures !closed && i + 1 < count ==> NextNode(count, closed, i) == Some(i + 1)
  {
    if i + 1 == count {
      assert (i + 1) % count == 0;
    } else {
      assert (i + 1) % count == i + 1;
    }
  }

  /** A closed single-node path links its node to itself. */
  lemma SingleClosedNodeIsOwnSuccessor()
    ensures NextNode(1, true, 0) == Some(0)
    ensures NextNode(1, false, 0) == None
  {
  }

  /** The outgoing handle is shown exactly when there is a next node. */
  lemma OutgoingShownIffNext(count: nat, closed: bool, i: nat)
    requires i < count
    ensures DrawOutgoing(count, closed, i) <==> NextNode(count, closed, i).Some?
  {
  }

  /** The incoming handle is shown exactly when some node has this one as its
      next node: only the first node of an open path has no predecessor. */
  lemma IncomingShownIffPredecessor(count: nat, closed: bool, i: nat)
    requires i < count
    ensures DrawIncoming(closed, i) <==> exists j :: 0 <= j < count && NextNode(count, closed, j) == Some(i)
  {
    if i > 0 {
      assert NextNode(count, closed, i - 1) == Some(i);
    } else if closed {
      assert NextNode(count, closed, count - 1) == Some(0);
    } else {
      forall j | 0 <= j < count
        ensures NextNode(count, closed, j) != Some(i)
      {
      }
    }
  }

  /** The closing waypoint connection, from the last node, is drawn exactly
      on closed paths of more than two nodes. */
  lemma ClosingConnectionDrawn(count: nat, closed: bool)
    requires count > 0
    ensures (NextNode(count, closed, count - 1).Some? && ShouldDrawConnection(count, count - 1))
            <==> closed && count > 2
  {
  }

  datatype Segment = Segment(from: Vec3, to: Vec3)

  /** What the drawing loop reads of a node. */
  datatype NodeView = NodeView(position: Vec3, handleIn: Vec3, handleOut: Vec3)

  /** What the drawing loop draws for one node: the dotted waypoint
      connection, the dotted control connection, and the flags passed on to
      `DrawNodeSceneGui`. */
  datatype NodeDraw = NodeDraw(
    waypointLine: Option<Segment>,
    controlLine: Option<Segment>,
    isActive: bool,
    drawIncoming: bool,
    drawOutgoing: bool)

  function NodeFrame(views: seq<NodeView>, closed: bool, active: seq<bool>, i: nat): (d: NodeDraw)
    requires i < |views| == |active|
    ensures d.controlLine.Some? <==> NextNode(|views|, closed, i).Some?
    ensures d.waypointLine.Some? ==> d.controlLine.Some?
    ensures d.waypointLine.Some? <==> NextNode(|views|, closed, i).Some? && ShouldDrawConnection(|views|, i)
    ensures d.waypointLine.Some? ==>
              d.waypointLine.value == Segment(views[i].position, views[NextNode(|views|, closed, i).value].position)
    ensures d.isActive == active[i]
    ensures d.drawIncoming == DrawIncoming(closed, i) && d.drawOutgoing == DrawOutgoing(|views|, closed, i)
  {
    var count := |views|;
    var next := NextNode(count, closed, i);
    var current := views[i];
    NodeDraw(
      if next.Some? && ShouldDrawConnection(count, i)
      then Some(Segment(current.position, views[next.value].position)) else None,
      if next.Some?
      then Some(Segment(Add(current.handleOut, current.position),
                        Add(views[next.value].handleIn, views[next.value].position)))
      else None,
      active[i],
      DrawIncoming(closed, i),
      DrawOutgoing(count, closed, i))
  }

  /** Everything one pass of `DrawAllNodes` draws, node by node. */
  function EditorFrame(views: seq<NodeView>, closed: bool, active: seq<bool>): (draws: seq<NodeDraw>)
    requires |views| == |active|
    ensures |draws| == |views|
  {
    seq(|views|, i requires 0 <= i < |views| => NodeFrame(views, closed, active, i))
  }

  function WaypointLineCount(draws: seq<NodeDraw>): nat
  {
    if draws == [] then 0
    else WaypointLineCount(draws[..|draws| - 1]) + (if draws[|draws| - 1].waypointLine.Some? then 1 else 0)
  }

  function ControlLineCount(draws: seq<NodeDraw>): nat
  {
    if draws == [] then 0
    else ControlLineCount(draws[..|draws| - 1]) + (if draws[|draws| - 1].controlLine.Some? then 1 else 0)
  }

  function Max(a: int, b: int): int
  {
    if a < b then b else a
  }

  lemma {:induction false} LineCountsBelow(views: seq<NodeView>, closed: bool, active: seq<bool>, n: nat)
    requires |views| == |active| && n <= |views|
    ensures var count := |views|;
            var draws := EditorFrame(views, closed, active)[..n];
            && WaypointLineCount(draws) == (if n < count then n else Max(count - 1, 0) + if closed && count > 2 then 1 else 0)
            && ControlLineCount(draws) == (if n < count then n else Max(count - 1, 0) + if closed && count > 0 then 1 else 0)
  {
    if n > 0 {
      var frame := EditorFrame(views, closed, active);
      assert frame[..n][..n - 1] == frame[..n - 1];
      LineCountsBelow(views, closed, active, n - 1);
    }
  }

  /** One pass draws `count` waypoint connections on a closed path of more
      than two nodes and one fewer otherwise (none on an empty path); it draws
      a control connection for every node on a closed path and for all but
      the last on an open one. */
  lemma LineCounts(views: seq<NodeView>, closed: bool, active: seq<bool>)
    requires |views| == |active|
    ensures var count := |views|;
            && WaypointLineCount(EditorFrame(views, closed, active)) ==
                 (if closed && count > 2 then count else Max(count - 1, 0))
            && ControlLineCount(EditorFrame(views, closed, active)) ==
                 (if closed then count else Max(count - 1, 0))
  {
    var frame := EditorFrame(views, closed, active);
    assert frame[..|views|] == frame;
    LineCountsBelow(views, closed, active, |views|);
  }

  /** Each control connection joins the current node's outgoing control point
      to the next node's incoming control point, both as absolute positions. */
  lemma ControlLineJoinsControlPoints(views: seq<NodeView>, closed: bool, active: seq<bool>, i: nat)
    requires i < |views| == |active| && NextNode(|views|, closed, i).Some?
    ensures var j := NextNode(|views|, closed, i).value;
            NodeFrame(views, closed, active, i).controlLine ==
              Some(Segment(Add(views[i].handleOut, views[i].position), Add(views[j].handleIn, views[j].position)))
  {
  }

  function View(node: BezierPathNode): NodeView
    reads node
  {
    NodeView(node.position, node.handleIn, node.handleOut)
  }

  function Views(nodes: seq<BezierPathNode>): (views: seq<NodeView>)
    reads set i | 0 <= i < |nodes| :: nodes[i]
    ensures |views| == |nodes|
    ensures forall i :: 0 <= i < |nodes| ==> views[i] == View(nodes[i])
  {
    seq(|nodes|, i requires 0 <= i < |nodes| reads set j | 0 <= j < |nodes| :: nodes[j] => View(nodes[i]))
  }

  /** Which nodes the pass marks active: the ones that are the selected node. */
  function ActiveFlags(nodes: seq<BezierPathNode>, selected: BezierPathNode?): (active: seq<bool>)
    ensures |active| == |nodes|
  {
    seq(|nodes|, i requires 0 <= i < |nodes| => nodes[i] == selected)
  }

  /** No node is active when nothing is selected; when the selected node is
      node `k` of a list without repeats, node `k` alone is active. */
  lemma ActiveIsSelected(nodes: seq<BezierPathNode>, selected: BezierPathNode?, k: nat)
    requires k < |nodes|
    requires forall i, j :: 0 <= i < j < |nodes| ==> nodes[i] != nodes[j]
    ensures selected == null ==> forall i :: 0 <= i < |nodes| ==> !ActiveFlags(nodes, selected)[i]
    ensures selected == nodes[k] ==> forall i :: 0 <= i < |nodes| ==> (ActiveFlags(nodes, selected)[i] <==> i == k)
  {
  }

  /** `DrawAllNodes`, drawing pass: `children` are the path's child nodes in
      hierarchy order and `selected` the node to highlight, if any. */
  method DrawAllNodes(path: Paths.BezierPath, children: seq<BezierPathNode>, selected: BezierPathNode?)
    returns (draws: seq<NodeDraw>)
    ensures draws == EditorFrame(Views(children), path.closed, ActiveFlags(children, selected))
  {
    var closedPath := path.closed;
    var nodes := children;
    ghost var views := Views(nodes);
    ghost var active := ActiveFlags(nodes, selected);
    var lastNodeIndex := |nodes| - 1;
    draws := [];
    for i := 0 to |nodes|
      invariant |draws| == i
      invariant forall k :: 0 <= k < i ==> draws[k] == NodeFrame(views, closedPath, active, k)
    {
      var currentNode := nodes[i];
      var nextNode: BezierPathNode? :=
        if i < lastNodeIndex then nodes[i + 1]
        else if closedPath then nodes[0]
        else null;

      var drawIncoming := i > 0 || closedPath;
      var drawOutgoing := i < lastNodeIndex || closedPath;
      var isActive := currentNode == selected;

      var shouldDrawConnection := i < lastNodeIndex || |nodes| > 2;
      var waypointLine := None;
      if nextNode != null && shouldDrawConnection {
        waypointLine := Some(Segment(currentNode.position, nextNode.position));
      }
      var controlLine := None;
      if nextNode != null {
        controlLine := Some(Segment(Add(currentNode.handleOut, currentNode.position),
                                    Add(nextNode.handleIn, nextNode.position)));
      }
      draws := draws + [NodeDraw(waypointLine, controlLine, isActive, drawIncoming, drawOutgoing)];
    }
  }

  /** The handle moves a user made in one scene-GUI call on a node: a new
      position, a new incoming or a new outgoing control, each if dragged. */
  datatype SceneEdits = SceneEdits(position: Option<Vec3>, handleIn: Option<Vec3>, handleOut: Option<Vec3>)

  /** The node state after the edits of `DrawNodeSceneGui`: control moves go
      through the `In` and `Out` setters, and only for shown handles. */
  function SceneEditState(s: NodeState, drawIncoming: bool, drawOutgoing: bool, edits: SceneEdits, ops: VectorOps): (r: NodeState)
    ensures r.nodeType == s.nodeType
    ensures !drawIncoming && !drawOutgoing ==> r == s
    ensures drawOutgoing && edits.handleOut.Some? ==> r.handleOut == edits.handleOut.value
    ensures drawIncoming && edits.handleIn.Some? && !(drawOutgoing && edits.handleOut.Some?) ==>
              r.handleIn == edits.handleIn.value
  {
    var afterIn := if drawIncoming && edits.handleIn.Some? then WithIn(s, edits.handleIn.value, ops) else s;
    if drawOutgoing && edits.handleOut.Some? then WithOut(afterIn, edits.handleOut.value, ops) else afterIn
  }

  /** A Symmetric node stays mirrored through any scene edit that moves one
      of its shown handles. */
  lemma SceneEditKeepsSymmetry(s: NodeState, drawIncoming: bool, drawOutgoing: bool, edits: SceneEdits, ops: VectorOps)
    requires s.nodeType == Symmetric
    requires (drawIncoming && edits.handleIn.Some?) || (drawOutgoing && edits.handleOut.Some?)
    ensures var r := SceneEditState(s, drawIncoming, drawOutgoing, edits, ops);
            r.handleOut == Neg(r.handleIn)
  {
    var r := SceneEditState(s, drawIncoming, drawOutgoing, edits, ops);
    if drawOutgoing && edits.handleOut.Some? {
      NegSymmetric(r.handleIn, r.handleOut);
    }
  }

  /** `DrawNodeSceneGui`, editing pass. */
  method DrawNodeSceneGui(node: BezierPathNode, drawIncoming: bool, drawOutgoing: bool, edits: SceneEdits, ops: VectorOps)
    modifies node
    ensures node.position == if edits.position.Some? then edits.position.value else old(node.position)
    ensures node.State() == SceneEditState(old(node.State()), drawIncoming, drawOutgoing, edits, ops)
  {
    if edits.position.Some? {
      node.position := edits.position.value;
    }
    if drawIncoming && edits.handleIn.Some? {
      node.SetIn(edits.handleIn.value, ops);
    }
    if drawOutgoing && edits.handleOut.Some? {
      node.SetOut(edits.handleOut.value, ops);
    }
  }
}
