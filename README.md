# Bezier path waypoints, their handle coupling and their scene drawing

This project models the editor-side core of a Unity Bezier spline tool. A path is an
ordered list of waypoint nodes and a closed flag. Each node has a continuity type
(`Connected`, `Symmetric` or `Broken`) and two control handles, `in` and `out`. The handles
are offsets from the node's position.

The model covers four pieces of the source:

- **The node** (`Nodes`, from `BezierPathNode.cs`). A class with the node's fields: type,
  both handles, the snapshot of the handles from the previous frame, and the position.
  Writing one handle re-derives the other:
  - `Connected`: the other handle becomes `-normalized(written) * |other|`.
  - `Symmetric`: the other handle becomes the exact negation of the written one.
  - `Broken`: nothing else changes, and the snapshot is not retaken.

  `Update` runs once per frame. It compares the handles with the snapshot, and an
  incoming edit wins over an outgoing one. Each method is proved against a function on a
  `NodeState` value. Lemmas about those functions state idempotence, coupling and
  stability after `Reset`.
- **The gizmo pass of the path** (`Paths`, from `BezierPath.cs`). `OnDrawGizmos` returns
  the list of cubes and lines it draws. Missing (null) entries in the serialized node list
  are part of the model. The loop dereferences a node's predecessor without a null check,
  and the closing line dereferences the first and last entries the same way. A null there
  is modelled as a fault that stops the pass; the commands already emitted are kept.
- **The scene view of a selected path** (`NodeEditorGui`, from `BezierPathNodeEditorGui.cs`).
  This covers which node comes next (with wrap-around on closed paths), which handles are
  shown, which connections are drawn, which node is active, and how handle drags reach the
  node through its `In`/`Out` setters.
- **The inspector drawer** (`NodePropertyDrawer`, from `BezierPathNodePropertyDrawer.cs`).
  It edits a plain node record and has its own copy of the coupling rule. That copy does
  not agree with the node's rule:
  - `Connected` is an exact mirror here.
  - `Symmetric` couples nothing here.
  - Switching the type to `Connected` re-derives `out` at once.

  `ConnectedRulesDiverge` and `SymmetricRulesDiverge` state the disagreement on concrete
  handles.

  The drawer is registered for `BezierPath.Node` and reads `BezierPath.NodeType`, and
  neither type exists in `BezierPath.cs`, so this drawer is stale code that attaches to
  no current type; it is modelled on a record with the node's fields.

Vectors are triples of reals with exact arithmetic (`Vectors`). The engine's
`Vector3.normalized` and `Vector3.magnitude` need a square root and are library code, so
they are a parameter (`VectorOps`). The lemmas about the `Connected` rule assume
`Lawful(ops)`: a non-negative magnitude that is positive away from zero and scales with
`|k|`, and normalisation as division by the magnitude. Nothing is assumed about `normalized` of
the zero vector; the scaling law makes its magnitude 0, as in the engine.

Points where the code's behaviour differs from what one might expect:

- The node does not guard against a zero handle in the `Connected` case.
- `Reset` does not touch the position.
- The node keeps its previous-frame snapshot and detects edits by comparing against it.
- The drawer's coupling rule differs from the node's, as described above.

## Model

| member | source | states |
|---|---|---|
| `Nodes.ConnectedRule` | Assets/Scripts/Bezier/BezierPathNode.cs:58 | the dependent handle (written the same way at line 73 for the other side) `-normalized(value) * |other|` is the zero vector when the other handle has length zero or the written value normalizes to zero (there is no zero-handle guard); partner: `ConnectedRuleOpposes` |
| `Nodes.TakeSnapshot` | Assets/Scripts/Bezier/BezierPathNode.cs:109-113 | afterwards the snapshot equals the current handles; type and handles unchanged |
| `Nodes.FromIncoming` | Assets/Scripts/Bezier/BezierPathNode.cs:53-66 | `in` and the type never change; Broken leaves the whole node, snapshot included, unchanged; Symmetric gives `out == -in`; Connected gives `out == -normalized(in) * |old out|`; both coupled types end in sync with the snapshot |
| `Nodes.FromOutgoing` | Assets/Scripts/Bezier/BezierPathNode.cs:68-81 | mirror image of `FromIncoming` with the roles of `in` and `out` swapped |
| `Nodes.WithIn` | Assets/Scripts/Bezier/BezierPathNode.cs:33-41 | the `In` setter stores the value exactly; on a Broken node `out` and the snapshot stay; on a Symmetric node `out == -v`; coupled nodes end in sync |
| `Nodes.WithOut` | Assets/Scripts/Bezier/BezierPathNode.cs:43-51 | the `Out` setter stores the value exactly; on a Broken node `in` and the snapshot stay; on a Symmetric node `in == -v`; coupled nodes end in sync |
| `Nodes.ResetState` | Assets/Scripts/Bezier/BezierPathNode.cs:83-88 | `Reset` makes the node Connected with `in == (0,0,-0.5)` and `out == -in`; the snapshot is untouched |
| `Nodes.UpdateState` | Assets/Scripts/Bezier/BezierPathNode.cs:95-107 | afterwards the node is in sync and keeps its type; an incoming edit is propagated even when `out` changed too; otherwise an outgoing edit is propagated; a node already in sync is left as it is |
| `Nodes.UpdateIdempotent` | Assets/Scripts/Bezier/BezierPathNode.cs:95-107 | two `Update` calls in a row equal one |
| `Nodes.SetterThenUpdate` | Assets/Scripts/Bezier/BezierPathNode.cs:33-51 | on a coupled node, an `Update` after either setter changes nothing, because the setter already snapshotted |
| `Nodes.BrokenUpdateKeepsHandles` | Assets/Scripts/Bezier/BezierPathNode.cs:53-81 | on a Broken node `Update` only retakes the snapshot |
| `Nodes.SymmetricUpdateMirrors` | Assets/Scripts/Bezier/BezierPathNode.cs:95-107 | a Symmetric node that is mirrored or has a pending edit is mirrored after `Update` |
| `Nodes.ConnectedRuleOpposes` | Assets/Scripts/Bezier/BezierPathNode.cs:58 | under a lawful norm the Connected rule yields a vector `r` with `r * |value| == -value * |other|` and `|r| == |other|` |
| `Nodes.ConnectedInOpposes` | Assets/Scripts/Bezier/BezierPathNode.cs:53-60 | writing a nonzero `in` on a Connected node makes `out` collinear with and opposite to it, with its old length |
| `Nodes.ConnectedOutOpposes` | Assets/Scripts/Bezier/BezierPathNode.cs:68-75 | writing a nonzero `out` on a Connected node makes `in` collinear with and opposite to it, with its old length |
| `Nodes.ConnectedRuleOnMirror` | Assets/Scripts/Bezier/BezierPathNode.cs:58 | applied to a nonzero handle and its exact mirror, the Connected rule returns the mirror |
| `Nodes.DefaultsAreConnected` | Assets/Scripts/Bezier/BezierPathNode.cs:83-88 | the Connected rule maps each default handle onto the other |
| `Nodes.ResetIsStable` | Assets/Scripts/Bezier/BezierPathNode.cs:83-107 | the `Update` after a `Reset` keeps the default handles whichever side it propagates from |
| `Nodes.BezierPathNode.constructor` | Assets/Scripts/Bezier/BezierPathNode.cs:9-19 | a new component has type Connected (the enum's first member) and zero handles and snapshot |
| `Nodes.BezierPathNode.SetType` | Assets/Scripts/Bezier/BezierPathNode.cs:21-25 | the `Type` setter stores the type and re-derives no handle |
| `Nodes.BezierPathNode.SetIn` | Assets/Scripts/Bezier/BezierPathNode.cs:33-41 | the new state is `WithIn` of the old; `in` is the written value; type and position unchanged |
| `Nodes.BezierPathNode.SetOut` | Assets/Scripts/Bezier/BezierPathNode.cs:43-51 | the new state is `WithOut` of the old; `out` is the written value; type and position unchanged |
| `Nodes.BezierPathNode.UpdateFromIncoming` | Assets/Scripts/Bezier/BezierPathNode.cs:53-66 | the new state is `FromIncoming` of the old; position unchanged |
| `Nodes.BezierPathNode.UpdateFromOutgoing` | Assets/Scripts/Bezier/BezierPathNode.cs:68-81 | the new state is `FromOutgoing` of the old; position unchanged |
| `Nodes.BezierPathNode.Reset` | Assets/Scripts/Bezier/BezierPathNode.cs:83-88 | the new state is `ResetState` of the old; position unchanged |
| `Nodes.BezierPathNode.Update` | Assets/Scripts/Bezier/BezierPathNode.cs:95-107 | the new state is `UpdateState` of the old; position unchanged |
| `Nodes.BezierPathNode.TakeControlSnapshot` | Assets/Scripts/Bezier/BezierPathNode.cs:109-113 | the new state is `TakeSnapshot` of the old |
| `Paths.NodeStep` | Assets/Scripts/Bezier/BezierPath.cs:39-53 | one iteration faults exactly when the mode is not WaypointOnly and a present node after the first has a missing predecessor; a missing entry draws nothing; a present one draws its cube first; at most two commands; partner: `StepContents` |
| `Paths.LoopOutput` | Assets/Scripts/Bezier/BezierPath.cs:37-54 | the first `n` iterations never fault in WaypointOnly mode; partners: `LoopFault`, `LoopContents`, `LoopLength` |
| `Paths.LoopLength` | Assets/Scripts/Bezier/BezierPath.cs:37-54 | the first `n` iterations emit at most two commands per node, a cube and a line |
| `Paths.GizmoFrame` | Assets/Scripts/Bezier/BezierPath.cs:26-29 | nothing is drawn, and nothing faults, while the path is selected or the mode is None |
| `Paths.LoopFault` | Assets/Scripts/Bezier/BezierPath.cs:37-54 | the loop faults if and only if the mode is Complete and some present node follows a missing one |
| `Paths.StepContents` | Assets/Scripts/Bezier/BezierPath.cs:39-53 | one non-faulting iteration draws the node's cube if it is present, and a line from its predecessor in Complete mode when both are present |
| `Paths.LoopContents` | Assets/Scripts/Bezier/BezierPath.cs:37-54 | a loop that did not fault drew one cube per present node, at its position, in order, and in Complete mode one line per adjacent pair of present nodes and no other lines |
| `Paths.GizmoFrameSpec` | Assets/Scripts/Bezier/BezierPath.cs:22-64 | the whole pass faults if and only if the mode is Complete and there is a dangling predecessor, or the closing line is attempted with a missing first or last node; without a fault the cubes are the present positions, and the lines are the adjacent links plus the closing line exactly when closed, Complete and more than two nodes; an empty list draws nothing |
| `Paths.WaypointOnlyDrawsNoLines` | Assets/Scripts/Bezier/BezierPath.cs:46-58 | WaypointOnly mode never faults and never draws a line, including the closing line |
| `Paths.FaultSticks` | Assets/Scripts/Bezier/BezierPath.cs:50-53 | after a fault no later iteration adds anything |
| `Paths.GizmoCubesAtNodes` | Assets/Scripts/Bezier/BezierPath.cs:36-44 | on a node list, a drawing pass that does not fault puts exactly one cube at each non-null node's position, in list order, and skips the null entries |
| `Paths.BezierPath.constructor` | Assets/Scripts/Bezier/BezierPath.cs:12-18 | a new path draws Complete gizmos, is open and has no nodes |
| `Paths.BezierPath.OnDrawGizmos` | Assets/Scripts/Bezier/BezierPath.cs:22-64 | the emitted commands and the fault flag are exactly `GizmoFrame` of the path's mode, closed flag and node list |
| `NodeEditorGui.NextNode` | Assets/Scripts/Bezier/Editor/BezierPathNodeEditorGui.cs:211-216 | the next node, when there is one, is a valid index |
| `NodeEditorGui.DrawIncoming` | Assets/Scripts/Bezier/Editor/BezierPathNodeEditorGui.cs:177 | on a closed path every incoming handle is shown; on an open path all but node 0's; partner: `IncomingShownIffPredecessor` |
| `NodeEditorGui.DrawOutgoing` | Assets/Scripts/Bezier/Editor/BezierPathNodeEditorGui.cs:178 | on a closed path every outgoing handle is shown; on an open path exactly those of nodes with a successor index; partner: `OutgoingShownIffNext` |
| `NodeEditorGui.ShouldDrawConnection` | Assets/Scripts/Bezier/Editor/BezierPathNodeEditorGui.cs:185 | on paths of more than two nodes every waypoint connection may be drawn; on shorter paths only those from a node with a successor index; partners: `ClosingConnectionDrawn`, `LineCounts` |
| `NodeEditorGui.NextIsWrappedSuccessor` | Assets/Scripts/Bezier/Editor/BezierPathNodeEditorGui.cs:211-216 | on a closed path the next node is `(i+1) mod count`; on an open path there is a next node exactly when `i+1 < count`, and it is `i+1` |
| `NodeEditorGui.SingleClosedNodeIsOwnSuccessor` | Assets/Scripts/Bezier/Editor/BezierPathNodeEditorGui.cs:211-216 | a closed one-node path links node 0 to itself; an open one has no next node |
| `NodeEditorGui.OutgoingShownIffNext` | Assets/Scripts/Bezier/Editor/BezierPathNodeEditorGui.cs:178 | the outgoing handle is shown exactly when the node has a next node, so only the last node of an open path hides it |
| `NodeEditorGui.IncomingShownIffPredecessor` | Assets/Scripts/Bezier/Editor/BezierPathNodeEditorGui.cs:177 | the incoming handle is shown exactly when some node has this one as its next, so only node 0 of an open path hides it |
| `NodeEditorGui.ClosingConnectionDrawn` | Assets/Scripts/Bezier/Editor/BezierPathNodeEditorGui.cs:185-186 | the waypoint connection from the last node is drawn exactly on closed paths of more than two nodes |
| `NodeEditorGui.NodeFrame` | Assets/Scripts/Bezier/Editor/BezierPathNodeEditorGui.cs:174-207 | a node's control connection is drawn exactly when it has a next node; its waypoint connection is drawn exactly when it has a next node and `ShouldDrawConnection` holds, and joins its position to the next node's position; the active flag is the node's selection flag and the handle flags are `DrawIncoming` and `DrawOutgoing` |
| `NodeEditorGui.EditorFrame` | Assets/Scripts/Bezier/Editor/BezierPathNodeEditorGui.cs:172-209 | one pass draws one record per node |
| `NodeEditorGui.LineCountsBelow` | Assets/Scripts/Bezier/Editor/BezierPathNodeEditorGui.cs:185-204 | over the first `n` nodes, every node before the last draws both connections |
| `NodeEditorGui.LineCounts` | Assets/Scripts/Bezier/Editor/BezierPathNodeEditorGui.cs:185-204 | a pass draws `count` waypoint connections on a closed path of more than two nodes and `max(count-1, 0)` otherwise; it draws `count` control connections on a closed path and `max(count-1, 0)` on an open one |
| `NodeEditorGui.ControlLineJoinsControlPoints` | Assets/Scripts/Bezier/Editor/BezierPathNodeEditorGui.cs:195-204 | each control connection joins `current.out + current.position` to `next.in + next.position` |
| `NodeEditorGui.ActiveFlags` | Assets/Scripts/Bezier/Editor/BezierPathNodeEditorGui.cs:179 | there is one active flag per node |
| `NodeEditorGui.ActiveIsSelected` | Assets/Scripts/Bezier/Editor/BezierPathNodeEditorGui.cs:179 | no node is active when none is selected; in a list without repeats, exactly the selected node is active |
| `NodeEditorGui.DrawAllNodes` | Assets/Scripts/Bezier/Editor/BezierPathNodeEditorGui.cs:164-217 | the drawing pass produces exactly `EditorFrame` of the child nodes, the path's closed flag and the selection |
| `NodeEditorGui.SceneEditState` | Assets/Scripts/Bezier/Editor/BezierPathNodeEditorGui.cs:104-140 | handle drags go through the setters and only for shown handles: with no handle shown nothing changes; a shown outgoing drag leaves `out` at the dragged value; a shown incoming drag leaves `in` at its value unless an outgoing drag follows |
| `NodeEditorGui.SceneEditKeepsSymmetry` | Assets/Scripts/Bezier/Editor/BezierPathNodeEditorGui.cs:104-140 | a Symmetric node is mirrored after any scene edit that moves one of its shown handles |
| `NodeEditorGui.DrawNodeSceneGui` | Assets/Scripts/Bezier/Editor/BezierPathNodeEditorGui.cs:70-143 | a position drag writes the position only; the node's state after the drags is `SceneEditState` of the old |
| `NodePropertyDrawer.PickType` | Assets/Scripts/Bezier/Editor/BezierPathNodePropertyDrawer.cs:37-57 | the picked type is stored; a real change to Connected makes `out == -in`; any other pick leaves `out`; an already mirrored `out` is never rewritten |
| `NodePropertyDrawer.EditPosition` | Assets/Scripts/Bezier/Editor/BezierPathNodePropertyDrawer.cs:59-68 | an edited position is stored and nothing else changes; no edit changes nothing |
| `NodePropertyDrawer.EditIn` | Assets/Scripts/Bezier/Editor/BezierPathNodePropertyDrawer.cs:70-84 | an edited `in` is stored; on a Connected node `out` becomes exactly its negation; on Symmetric and Broken `out` is untouched |
| `NodePropertyDrawer.EditOut` | Assets/Scripts/Bezier/Editor/BezierPathNodePropertyDrawer.cs:86-100 | an edited `out` is stored; on a Connected node `in` becomes exactly its negation; on Symmetric and Broken `in` is untouched |
| `NodePropertyDrawer.DrawerGui` | Assets/Scripts/Bezier/Editor/BezierPathNodePropertyDrawer.cs:10-35 | after one drawer pass the type is the picked one, the position is the edited one if any, and the last edited control holds its value |
| `NodePropertyDrawer.DrawerKeepsConnectedMirrored` | Assets/Scripts/Bezier/Editor/BezierPathNodePropertyDrawer.cs:26-29 | a pass that leaves the record Connected leaves it mirrored if it was mirrored, was just switched to Connected, or had a control edited |
| `NodePropertyDrawer.PickTypeWithoutConnectedSwitch` | Assets/Scripts/Bezier/Editor/BezierPathNodePropertyDrawer.cs:46-49 | picking Symmetric, Broken or the current type changes no control |
| `NodePropertyDrawer.ConnectedRulesDiverge` | Assets/Scripts/Bezier/Editor/BezierPathNodePropertyDrawer.cs:82 | for `in := (0,0,2)` with `out == (0,0,1)` on a Connected node, the node's rule gives `out == (0,0,-1)` and the drawer's gives `(0,0,-2)` |
| `NodePropertyDrawer.SymmetricRulesDiverge` | Assets/Scripts/Bezier/Editor/BezierPathNodePropertyDrawer.cs:82 | on a Symmetric node the node mirrors a written `in`, while the drawer leaves `out` as it was |
| `NodePropertyDrawer.SerializedNode.InspectorGizmoDrawMode` | Assets/Scripts/Bezier/Editor/BezierPathNodePropertyDrawer.cs:37-57 | the new record is `PickType` of the old |
| `NodePropertyDrawer.SerializedNode.InspectorWaypointPosition` | Assets/Scripts/Bezier/Editor/BezierPathNodePropertyDrawer.cs:59-68 | the new record is `EditPosition` of the old |
| `NodePropertyDrawer.SerializedNode.InspectorInPosition` | Assets/Scripts/Bezier/Editor/BezierPathNodePropertyDrawer.cs:70-84 | the new record is `EditIn` of the old |
| `NodePropertyDrawer.SerializedNode.InspectorOutPosition` | Assets/Scripts/Bezier/Editor/BezierPathNodePropertyDrawer.cs:86-100 | the new record is `EditOut` of the old |
| `NodePropertyDrawer.SerializedNode.OnGui` | Assets/Scripts/Bezier/Editor/BezierPathNodePropertyDrawer.cs:10-35 | the new record is `DrawerGui` of the old: type, position, `in`, then `out` |

## Left out

- Curve evaluation, segment sampling and segment counting: no shown source file evaluates or samples a Bezier curve, so there is no code to model.
- Floating point: vectors are exact reals. Unity's `Vector3 ==` and `!=`, used by `Update` (Assets/Scripts/Bezier/BezierPathNode.cs:97, 101) and by the drawer, compare within a tolerance; the model compares exactly.
- `Vector3.normalized` and `Vector3.magnitude` are parameters (`VectorOps`), not computed. The node never checks for a zero handle under `Connected`, and what the engine returns for `normalized` of the zero vector is library behaviour, so the lemmas about the `Connected` rule require a nonzero handle.
- Unity lifecycle: `Awake` (which only takes the snapshot) and the frame loop that calls `Update` are not modelled; `Update` and `TakeControlSnapshot` are explicit methods.
- `Position` delegates to the transform; here it is a plain field of the node.
- Editor selection, the scene-graph query for a path's child nodes (`GetNodeList`) and the user's handle drags and field edits are parameters.
- `NodeEditorGui.DrawAllNodes` models the drawing pass and `NodeEditorGui.DrawNodeSceneGui` models the editing pass separately. The engine's immediate-mode GUI handles input and repaint in different passes, so an edit made halfway through a drawing loop is not modelled.
- Handle caps, cap sizes, colours, drawing matrices, line widths and `Undo` records: presentation only.
- `DrawNodeInspectorGui`, `BezierPathEditor.cs` and `BezierPathNodeEditor.cs`: inspector layout with no logic of its own.
- Adding and removing waypoints (`new GameObject`, sibling ordering, `DestroyImmediate`) is scene-graph mutation and is not modelled. In that code the "Add waypoint to start" and "Add waypoint to end" menu items call each other's handlers (Assets/Scripts/Bezier/Editor/BezierPathEditor.cs:81-82).
- The playground line-segment prototypes repeat the closing-line rule already modelled for `OnDrawGizmos`.
- The drawer's `IsValid` check and its `Debug.Assert`: the modelled record always has its type field, so the drawer always takes the editing branch. The enum the drawer targets is taken to have the node's three members in the node's order.
- A null-reference exception in `OnDrawGizmos` is modelled as a `faulted` flag that stops the pass. The engine's logging of the exception is not modelled.
