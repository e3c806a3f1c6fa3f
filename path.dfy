/** A Bezier path: an ordered list of waypoint nodes, a closed flag and the
    mode in which the path draws its scene gizmos while it is not selected.
    Drawing is modelled as the sequence of commands the gizmo pass emits. */
module Paths {
  import opened Vectors
  import opened Nodes

  datatype GizmoDrawMode = Complete | WaypointOnly | None

  /** The edge length of a waypoint cube, `Vector3.one * 0.125`. */
  const CubeSize := Vec3(0.125, 0.125, 0.125)

  datatype GizmoCommand =
    | Cube(center: Vec3, size: Vec3)
    | Line(from: Vec3, to: Vec3)

  /** What the gizmo pass draws. `faulted` records that it stopped on a
      null-reference exception: the commands emitted before the fault stay
      drawn and nothing after it is. */
  datatype GizmoOutput = GizmoOutput(commands: seq<GizmoCommand>, faulted: bool)

  /** An entry of the serialized node list: a missing (null or destroyed)
      reference, or a node at a position. */
  datatype Slot = Missing | Present(position: Vec3)

  /** The commands of the loop body for entry `i`. A present node gets its
      cube; outside WaypointOnly mode a node after the first also gets a line
      from its predecessor, whose reference is dereferenced unchecked. */
  function NodeStep(slots: seq<Slot>, mode: GizmoDrawMode, i: nat): (r: GizmoOutput)
    requires i < |slots|
    ensures r.faulted <==> mode != WaypointOnly && 0 < i && slots[i].Present? && slots[i - 1].Missing?
    ensures slots[i].Missing? ==> r.commands == []
    ensures slots[i].Present? ==> |r.commands| > 0 && r.commands[0] == Cube(slots[i].position, CubeSize)
    ensures |r.commands| <= 2
  {
    match slots[i]
    case Missing => GizmoOutput([], false)
    case Present(pos) =>
      if mode == WaypointOnly || i == 0 then GizmoOutput([Cube(pos, CubeSize)], false)
      else if slots[i - 1].Missing? then GizmoOutput([Cube(pos, CubeSize)], true)
      else GizmoOutput([Cube(pos, CubeSize), Line(slots[i - 1].position, pos)], false)
  }

  /** The output of the first `n` iterations of the gizmo loop. */
  function LoopOutput(slots: seq<Slot>, mode: GizmoDrawMode, n: nat): (r: GizmoOutput)
    requires n <= |slots|
    ensures mode == WaypointOnly ==> !r.faulted
  {
    if n == 0 then GizmoOutput([], false)
    else
      var before := LoopOutput(slots, mode, n - 1);
      if before.faulted then before
      else
        var step := NodeStep(slots, mode, n - 1);
        GizmoOutput(before.commands + step.commands, step.faulted)
  }

  /** Each iteration draws at most a cube and a line. */
  lemma {:induction false} LoopLength(slots: seq<Slot>, mode: GizmoDrawMode, n: nat)
    requires n <= |slots|
    ensures |LoopOutput(slots, mode, n).commands| <= 2 * n
  {
    if n > 0 {
      LoopLength(slots, mode, n - 1);
    }
  }

  /** The whole gizmo pass of `OnDrawGizmos`. */
  function GizmoFrame(selected: bool, mode: GizmoDrawMode, closed: bool, slots: seq<Slot>): (f: GizmoOutput)
    ensures selected || mode == None ==> f == GizmoOutput([], false)
  {
    if selected || mode == None then GizmoOutput([], false)
    else
      var loop := LoopOutput(slots, mode, |slots|);
      if loop.faulted || !closed || mode != Complete || |slots| <= 2 then loop
      else if slots[0].Missing? || slots[|slots| - 1].Missing? then GizmoOutput(loop.commands, true)
      else GizmoOutput(loop.commands + [Line(slots[|slots| - 1].position, slots[0].position)], false)
  }

  /** The centres of the cubes among `cmds`, in order. */
  function Cubes(cmds: seq<GizmoCommand>): seq<Vec3>
  {
    if cmds == [] then []
    else Cubes(cmds[..|cmds| - 1]) + (if cmds[|cmds| - 1].Cube? then [cmds[|cmds| - 1].center] else [])
  }

  /** The lines among `cmds`, in order. */
  function Lines(cmds: seq<GizmoCommand>): seq<GizmoCommand>
  {
    if cmds == [] then []
    else Lines(cmds[..|cmds| - 1]) + (if cmds[|cmds| - 1].Line? then [cmds[|cmds| - 1]] else [])
  }

  /** The positions of the present entries below `n`, in order. */
  function PresentBelow(slots: seq<Slot>, n: nat): seq<Vec3>
    requires n <= |slots|
  {
    if n == 0 then []
    else PresentBelow(slots, n - 1) + (if slots[n - 1].Present? then [slots[n - 1].position] else [])
  }

  /** A line from each present entry below `n` to the present entry after it. */
  function LinksBelow(slots: seq<Slot>, n: nat): seq<GizmoCommand>
    requires n <= |slots|
  {
    if n <= 1 then []
    else
      LinksBelow(slots, n - 1)
      + (if slots[n - 2].Present? && slots[n - 1].Present?
         then [Line(slots[n - 2].position, slots[n - 1].position)] else [])
  }

  /** Some present entry below `n` follows a missing one. */
  predicate DanglingBelow(slots: seq<Slot>, n: nat)
    requires n <= |slots|
  {
    exists i :: 0 < i < n && slots[i].Present? && slots[i - 1].Missing?
  }

  /** The closing line is attempted: closed, complete and more than two entries. */
  predicate ClosingAttempted(mode: GizmoDrawMode, closed: bool, slots: seq<Slot>)
  {
    closed && mode == Complete && |slots| > 2
  }

  lemma {:induction false} CubesAppend(a: seq<GizmoCommand>, b: seq<GizmoCommand>)
    ensures Cubes(a + b) == Cubes(a) + Cubes(b)
    ensures Lines(a + b) == Lines(a) + Lines(b)
    decreases |b|
  {
    if b == [] {
      assert a + b == a;
    } else {
      var b' := b[..|b| - 1];
      assert (a + b)[..|a + b| - 1] == a + b';
      CubesAppend(a, b');
    }
  }

  /** The loop faults exactly when, outside WaypointOnly mode, it reaches a
      present node right after a missing one. */
  lemma {:induction false} LoopFault(slots: seq<Slot>, mode: GizmoDrawMode, n: nat)
    requires n <= |slots| && mode != None
    ensures LoopOutput(slots, mode, n).faulted <==> mode == Complete && DanglingBelow(slots, n)
  {
    if n > 0 {
      LoopFault(slots, mode, n - 1);
      var before := LoopOutput(slots, mode, n - 1);
      var danglingHere := 0 < n - 1 && slots[n - 1].Present? && slots[n - 2].Missing?;
      if DanglingBelow(slots, n - 1) {
        var i :| 0 < i < n - 1 && slots[i].Present? && slots[i - 1].Missing?;
        assert 0 < i < n && slots[i].Present? && slots[i - 1].Missing?;
      }
      if danglingHere {
        assert 0 < n - 1 < n && slots[n - 1].Present? && slots[n - 2].Missing?;
      }
      if DanglingBelow(slots, n) && !DanglingBelow(slots, n - 1) {
        var i :| 0 < i < n && slots[i].Present? && slots[i - 1].Missing?;
        assert i == n - 1;
      }
      assert DanglingBelow(slots, n) <==> DanglingBelow(slots, n - 1) || danglingHere;
      if !before.faulted {
        var step := NodeStep(slots, mode, n - 1);
        assert LoopOutput(slots, mode, n).faulted == step.faulted;
      }
    }
  }

  /** What one non-faulting loop step draws. */
  lemma StepContents(slots: seq<Slot>, mode: GizmoDrawMode, i: nat)
    requires i < |slots| && mode != None && !NodeStep(slots, mode, i).faulted
    ensures Cubes(NodeStep(slots, mode, i).commands) ==
              (if slots[i].Present? then [slots[i].position] else [])
    ensures Lines(NodeStep(slots, mode, i).commands) ==
              (if mode == Complete && i > 0 && slots[i - 1].Present? && slots[i].Present?
               then [Line(slots[i - 1].position, slots[i].position)] else [])
  {
    assert Cubes([]) == [] && Lines([]) == [];
    if slots[i].Present? {
      var c := Cube(slots[i].position, CubeSize);
      assert [c][..0] == [];
      if mode == Complete && i > 0 {
        var l := Line(slots[i - 1].position, slots[i].position);
        assert [c, l][..1] == [c];
      }
    }
  }

  /** The cubes of a loop that has not faulted: one per present node, at its
      position, in order. */
  lemma {:induction false} LoopCubes(slots: seq<Slot>, mode: GizmoDrawMode, n: nat)
    requires n <= |slots| && mode != None && !LoopOutput(slots, mode, n).faulted
    ensures Cubes(LoopOutput(slots, mode, n).commands) == PresentBelow(slots, n)
  {
    if n > 0 {
      LoopStep(slots, mode, n);
      LoopCubes(slots, mode, n - 1);
      StepContents(slots, mode, n - 1);
    }
  }

  /** The lines of a loop that has not faulted: in Complete mode one per pair
      of adjacent present nodes, otherwise none. */
  lemma {:induction false} LoopLines(slots: seq<Slot>, mode: GizmoDrawMode, n: nat)
    requires n <= |slots| && mode != None && !LoopOutput(slots, mode, n).faulted
    ensures Lines(LoopOutput(slots, mode, n).commands) == (if mode == Complete then LinksBelow(slots, n) else [])
  {
    if n > 0 {
      LoopStep(slots, mode, n);
      LoopLines(slots, mode, n - 1);
      StepLinks(slots, mode, n - 1);
    }
  }

  /** A non-faulting iteration `n` extends the output of the iterations
      before it, which did not fault either. */
  lemma LoopStep(slots: seq<Slot>, mode: GizmoDrawMode, n: nat)
    requires 0 < n <= |slots| && !LoopOutput(slots, mode, n).faulted
    ensures !LoopOutput(slots, mode, n - 1).faulted && !NodeStep(slots, mode, n - 1).faulted
    ensures Cubes(LoopOutput(slots, mode, n).commands)
            == Cubes(LoopOutput(slots, mode, n - 1).commands) + Cubes(NodeStep(slots, mode, n - 1).commands)
    ensures Lines(LoopOutput(slots, mode, n).commands)
            == Lines(LoopOutput(slots, mode, n - 1).commands) + Lines(NodeStep(slots, mode, n - 1).commands)
  {
    var before := LoopOutput(slots, mode, n - 1);
    var step := NodeStep(slots, mode, n - 1);
    assert LoopOutput(slots, mode, n).commands == before.commands + step.commands;
    CubesAppend(before.commands, step.commands);
  }

  /** The links of one more entry are the lines its non-faulting iteration
      draws in Complete mode; other modes draw no line. */
  lemma StepLinks(slots: seq<Slot>, mode: GizmoDrawMode, i: nat)
    requires i < |slots| && mode != None && !NodeStep(slots, mode, i).faulted
    ensures mode == Complete ==> LinksBelow(slots, i + 1) == LinksBelow(slots, i) + Lines(NodeStep(slots, mode, i).commands)
    ensures mode != Complete ==> Lines(NodeStep(slots, mode, i).commands) == []
  {
    StepContents(slots, mode, i);
  }

  /** A loop that has not faulted has drawn one cube per present node, at its
      position, and in Complete mode one line per pair of adjacent present
      nodes. */
  lemma LoopContents(slots: seq<Slot>, mode: GizmoDrawMode, n: nat)
    requires n <= |slots| && mode != None && !LoopOutput(slots, mode, n).faulted
    ensures Cubes(LoopOutput(slots, mode, n).commands) == PresentBelow(slots, n)
    ensures Lines(LoopOutput(slots, mode, n).commands) == (if mode == Complete then LinksBelow(slots, n) else [])
  {
    LoopCubes(slots, mode, n);
    LoopLines(slots, mode, n);
  }

  /** What a whole gizmo pass draws, with the fault condition stated in both
      directions. */
  lemma GizmoFrameSpec(selected: bool, mode: GizmoDrawMode, closed: bool, slots: seq<Slot>)
    ensures var f := GizmoFrame(selected, mode, closed, slots);
            && (f.faulted <==>
                  !selected && mode == Complete
                  && (DanglingBelow(slots, |slots|)
                      || (ClosingAttempted(mode, closed, slots)
                          && (slots[0].Missing? || slots[|slots| - 1].Missing?))))
            && (!f.faulted ==>
                  Cubes(f.commands) == (if selected || mode == None then [] else PresentBelow(slots, |slots|)))
            && (!f.faulted ==>
                  Lines(f.commands) ==
                    if selected || mode != Complete then []
                    else LinksBelow(slots, |slots|)
                         + if ClosingAttempted(mode, closed, slots)
                           then [Line(slots[|slots| - 1].position, slots[0].position)] else [])
  {
    if !selected && mode != None {
      LoopFault(slots, mode, |slots|);
      var loop := LoopOutput(slots, mode, |slots|);
      if !loop.faulted {
        LoopContents(slots, mode, |slots|);
      }
      if !loop.faulted && ClosingAttempted(mode, closed, slots)
         && slots[0].Present? && slots[|slots| - 1].Present? {
        var l := Line(slots[|slots| - 1].position, slots[0].position);
        CubesAppend(loop.commands, [l]);
        assert [l][..0] == [];
      }
    }
  }

  /** WaypointOnly mode never draws a line, not even the closing one, and
      never faults. */
  lemma WaypointOnlyDrawsNoLines(selected: bool, closed: bool, slots: seq<Slot>)
    ensures !GizmoFrame(selected, WaypointOnly, closed, slots).faulted
    ensures Lines(GizmoFrame(selected, WaypointOnly, closed, slots).commands) == []
  {
    GizmoFrameSpec(selected, WaypointOnly, closed, slots);
  }

  /** Once the loop has faulted, later iterations add nothing. */
  lemma {:induction false} FaultSticks(slots: seq<Slot>, mode: GizmoDrawMode, k: nat, n: nat)
    requires k <= n <= |slots| && LoopOutput(slots, mode, k).faulted
    ensures LoopOutput(slots, mode, n) == LoopOutput(slots, mode, k)
    decreases n - k
  {
    if k < n {
      FaultSticks(slots, mode, k, n - 1);
    }
  }

  /** The entries of a node list as the gizmo pass sees them. */
  function Slots(nodes: seq<BezierPathNode?>): (s: seq<Slot>)
    reads set i | 0 <= i < |nodes| && nodes[i] != null :: nodes[i]
    ensures |s| == |nodes|
    ensures forall i :: 0 <= i < |nodes| ==>
              (s[i].Missing? <==> nodes[i] == null)
              && (nodes[i] != null ==> s[i].position == nodes[i].position)
  {
    seq(|nodes|, i requires 0 <= i < |nodes| reads set j | 0 <= j < |nodes| && nodes[j] != null :: nodes[j] =>
          if nodes[i] == null then Missing else Present(nodes[i].position))
  }

  /** The positions of the non-null entries of a node list, in list order. */
  function NodePositions(nodes: seq<BezierPathNode?>): seq<Vec3>
    reads set i | 0 <= i < |nodes| && nodes[i] != null :: nodes[i]
  {
    if nodes == [] then []
    else
      var last := nodes[|nodes| - 1];
      NodePositions(nodes[..|nodes| - 1]) + (if last != null then [last.position] else [])
  }

  lemma {:induction false} PresentBelowSlots(nodes: seq<BezierPathNode?>, n: nat)
    requires n <= |nodes|
    ensures PresentBelow(Slots(nodes), n) == NodePositions(nodes[..n])
  {
    if n > 0 {
      PresentBelowSlots(nodes, n - 1);
      assert nodes[..n][..n - 1] == nodes[..n - 1];
    }
  }

  /** A gizmo pass that draws and does not fault puts one cube at each
      non-null node of the list, in list order, and nowhere else. */
  lemma GizmoCubesAtNodes(mode: GizmoDrawMode, closed: bool, nodes: seq<BezierPathNode?>)
    requires mode != None && !GizmoFrame(false, mode, closed, Slots(nodes)).faulted
    ensures Cubes(GizmoFrame(false, mode, closed, Slots(nodes)).commands) == NodePositions(nodes)
  {
    GizmoFrameSpec(false, mode, closed, Slots(nodes));
    PresentBelowSlots(nodes, |nodes|);
    assert nodes[..|nodes|] == nodes;
  }

  class BezierPath {
    var gizmoDrawMode: GizmoDrawMode
    var closed: bool
    var nodes: seq<BezierPathNode?>

    /** The serialized defaults: Complete gizmos, open, no nodes. */
    constructor ()
      ensures gizmoDrawMode == Complete && !closed && nodes == []
    {
      gizmoDrawMode := Complete;
      closed := false;
      nodes := [];
    }

    /** `OnDrawGizmos`: `selected` says whether the path's game object is the
        editor's active selection. */
    method OnDrawGizmos(selected: bool) returns (output: GizmoOutput)
      ensures output == GizmoFrame(selected, gizmoDrawMode, closed, Slots(nodes))
    {
      if selected {
        return GizmoOutput([], false);
      }
      var drawMode := gizmoDrawMode;
      if drawMode == None {
        return GizmoOutput([], false);
      }
      ghost var slots := Slots(nodes);
      var commands := [];
      for index := 0 to |nodes|
        invariant LoopOutput(slots, drawMode, index) == GizmoOutput(commands, false)
      {
        var node := nodes[index];
        if node == null {
          continue;
        }
        var pos := node.position;
        commands := commands + [Cube(pos, CubeSize)];
        if drawMode == WaypointOnly {
          continue;
        }
        if index <= 0 {
          continue;
        }
        var previous := nodes[index - 1];
        if previous == null {
          // `previous.Position` throws
          FaultSticks(slots, drawMode, index + 1, |slots|);
          return GizmoOutput(commands, true);
        }
        commands := commands + [Line(previous.position, pos)];
      }
      if !closed {
        return GizmoOutput(commands, false);
      }
      if drawMode != Complete || |nodes| <= 2 {
        return GizmoOutput(commands, false);
      }
      var first := nodes[0];
      var last := nodes[|nodes| - 1];
      if last == null || first == null {
        // `last.Position` or `first.Position` throws
        return GizmoOutput(commands, true);
      }
      output := GizmoOutput(commands + [Line(last.position, first.position)], false);
    }
  }
}
