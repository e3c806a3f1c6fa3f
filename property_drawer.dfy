/** The inspector drawer for a serialized node record (type, position,
    incoming and outgoing control). It carries its own copy of the handle
    coupling rule, and that copy differs from the node's: here Connected means
    an exact mirror (`out == -in`), Symmetric couples nothing, and switching
    the type to Connected re-derives the outgoing control at once. The record
    type it is registered for (a `Node` type nested in the path class) is not
    the node component of `Nodes`; its type enumeration is taken to have the
    same three members. */
module NodePropertyDrawer {
  import opened Vectors
  import opened Options
  import opened Nodes

  /** The serialized fields the drawer reads and writes. */
  datatype InspectorNode = InspectorNode(nodeType: NodeType, position: Vec3, handleIn: Vec3, handleOut: Vec3)

  predicate Mirrored(n: InspectorNode)
  {
    n.handleOut == Neg(n.handleIn)
  }

  /** `InspectorGizmoDrawMode`: store the type picked in the popup; a real
      change to Connected makes the outgoing control the exact mirror of the
      incoming one. */
  function PickType(n: InspectorNode, picked: NodeType): (r: InspectorNode)
    ensures r.nodeType == picked && r.position == n.position && r.handleIn == n.handleIn
    ensures picked == Connected && n.nodeType != Connected ==> Mirrored(r)
    ensures picked != Connected || n.nodeType == Connected ==> r.handleOut == n.handleOut
    ensures Mirrored(n) ==> r.handleOut == n.handleOut
  {
    var valueChanged := n.nodeType != picked;
    var stored := n.(nodeType := picked);
    if valueChanged && picked == Connected && n.handleIn != Neg(n.handleOut)
    then stored.(handleOut := Neg(n.handleIn))
    else
      NegSymmetric(n.handleIn, n.handleOut);
      stored
  }

  /** `InspectorWaypointPosition`: a changed position field is stored. */
  function EditPosition(n: InspectorNode, edit: Option<Vec3>): (r: InspectorNode)
    ensures edit.None? ==> r == n
    ensures edit.Some? ==> r == n.(position := edit.value)
  {
    match edit
    case None => n
    case Some(v) => n.(position := v)
  }

  /** `InspectorInPosition`: a changed incoming control is stored, and on a
      Connected node the outgoing control becomes its exact negation. */
  function EditIn(n: InspectorNode, edit: Option<Vec3>): (r: InspectorNode)
    ensures edit.None? ==> r == n
    ensures edit.Some? ==> r.handleIn == edit.value
    ensures r.nodeType == n.nodeType && r.position == n.position
    ensures edit.Some? && n.nodeType == Connected ==> r.handleOut == Neg(edit.value)
    ensures n.nodeType != Connected ==> r.handleOut == n.handleOut
  {
    match edit
    case None => n
    case Some(v) =>
      var stored := n.(handleIn := v);
      if n.nodeType == Connected then stored.(handleOut := Neg(v)) else stored
  }

  /** `InspectorOutPosition`: the mirror image of `EditIn`. */
  function EditOut(n: InspectorNode, edit: Option<Vec3>): (r: InspectorNode)
    ensures edit.None? ==> r == n
    ensures edit.Some? ==> r.handleOut == edit.value
    ensures r.nodeType == n.nodeType && r.position == n.position
    ensures edit.Some? && n.nodeType == Connected ==> r.handleIn == Neg(edit.value)
    ensures n.nodeType != Connected ==> r.handleIn == n.handleIn
  {
    match edit
    case None => n
    case Some(v) =>
      var stored := n.(handleOut := v);
      if n.nodeType == Connected then stored.(handleIn := Neg(v)) else stored
  }

  /** `OnGUI`: the four fields in the order the drawer lays them out. */
  function DrawerGui(n: InspectorNode, picked: NodeType, positionEdit: Option<Vec3>, inEdit: Option<Vec3>, outEdit: Option<Vec3>): (r: InspectorNode)
    ensures r.nodeType == picked
    ensures r.position == if positionEdit.Some? then positionEdit.value else n.position
    ensures outEdit.Some? ==> r.handleOut == outEdit.value
    ensures inEdit.Some? && !(picked == Connected && outEdit.Some?) ==> r.handleIn == inEdit.value
  {
    EditOut(EditIn(EditPosition(PickType(n, picked), positionEdit), inEdit), outEdit)
  }

  /** After a drawer pass that leaves the node Connected, its controls mirror
      each other whenever they did before, or the type was just switched to
      Connected, or either control was edited. */
  lemma DrawerKeepsConnectedMirrored(n: InspectorNode, picked: NodeType, positionEdit: Option<Vec3>, inEdit: Option<Vec3>, outEdit: Option<Vec3>)
    requires picked == Connected
    requires Mirrored(n) || n.nodeType != Connected || inEdit.Some? || outEdit.Some?
    ensures Mirrored(DrawerGui(n, picked, positionEdit, inEdit, outEdit))
  {
    var afterType := PickType(n, picked);
    var afterIn := EditIn(EditPosition(afterType, positionEdit), inEdit);
    var r := EditOut(afterIn, outEdit);
    if outEdit.Some? {
      NegSymmetric(r.handleIn, r.handleOut);
    }
  }

  /** Choosing Symmetric or Broken, or the type the node already has, leaves
      both controls as they are. */
  lemma PickTypeWithoutConnectedSwitch(n: InspectorNode, picked: NodeType)
    requires picked != Connected || n.nodeType == picked
    ensures PickType(n, picked) == n.(nodeType := picked)
  {
  }

  /** The two Connected rules disagree. Writing the incoming handle (0,0,2)
      on a Connected node whose outgoing handle is (0,0,1) gives the node an
      outgoing handle (0,0,-1), its old length kept, while the drawer gives
      (0,0,-2), the exact mirror. */
  lemma ConnectedRulesDiverge(ops: VectorOps, s: NodeState, n: InspectorNode)
    requires Lawful(ops)
    requires s.nodeType == Connected && s.handleOut == Vec3(0.0, 0.0, 1.0)
    requires n.nodeType == Connected && n.handleOut == Vec3(0.0, 0.0, 1.0)
    ensures WithIn(s, Vec3(0.0, 0.0, 2.0), ops).handleOut == Vec3(0.0, 0.0, -1.0)
    ensures EditIn(n, Some(Vec3(0.0, 0.0, 2.0))).handleOut == Vec3(0.0, 0.0, -2.0)
  {
    var v := Vec3(0.0, 0.0, 2.0);
    var u := Vec3(0.0, 0.0, 1.0);
    var r := ConnectedRule(ops, v, u);
    var m := ops.magnitude(u);
    assert m > 0.0 && ops.magnitude(v) == 2.0 * m by {
      LawfulAt(ops, u, 2.0);
      assert Scale(u, 2.0) == v;
    }
    assert Scale(r, 2.0 * m) == Scale(v, -m) by {
      ConnectedRuleOpposes(ops, v, u);
    }
    assert Scale(v, -m) == Scale(Vec3(0.0, 0.0, -1.0), 2.0 * m);
    ScaleCancel(r, Vec3(0.0, 0.0, -1.0), 2.0 * m);
  }

  /** The two Symmetric rules disagree: the node mirrors a written handle,
      the drawer leaves the other control alone. */
  lemma SymmetricRulesDiverge(ops: VectorOps, s: NodeState, n: InspectorNode, v: Vec3)
    requires s.nodeType == Symmetric && n.nodeType == Symmetric
    requires s.handleOut == n.handleOut && n.handleOut != Neg(v)
    ensures WithIn(s, v, ops).handleOut == Neg(v)
    ensures EditIn(n, Some(v)).handleOut == n.handleOut
    ensures WithIn(s, v, ops).handleOut != EditIn(n, Some(v)).handleOut
  {
  }

  /** A serialized node record as the drawer edits it, field by field. */
  class SerializedNode {
    var nodeType: NodeType
    var position: Vec3
    var handleIn: Vec3
    var handleOut: Vec3

    function Value(): InspectorNode
      reads this
    {
      InspectorNode(nodeType, position, handleIn, handleOut)
    }

    constructor (n: InspectorNode)
      ensures Value() == n
    {
      nodeType, position, handleIn, handleOut := n.nodeType, n.position, n.handleIn, n.handleOut;
    }

    /** `InspectorGizmoDrawMode`: `picked` is the popup's value. */
    method InspectorGizmoDrawMode(picked: NodeType)
      modifies this
      ensures Value() == PickType(old(Value()), picked)
    {
      var valueChanged := nodeType != picked;
      nodeType := picked;
      if valueChanged && picked == Connected {
        if handleIn != Neg(handleOut) {
          handleOut := Neg(handleIn);
        }
      }
    }

    /** `InspectorWaypointPosition`: `edit` is the field's value when the
        change check fired. */
    method InspectorWaypointPosition(edit: Option<Vec3>)
      modifies this
      ensures Value() == EditPosition(old(Value()), edit)
    {
      if edit.Some? {
        position := edit.value;
      }
    }

    method InspectorInPosition(edit: Option<Vec3>)
      modifies this
      ensures Value() == EditIn(old(Value()), edit)
    {
      var t := nodeType;
      if edit.Some? {
        var newValue := edit.value;
        handleIn := newValue;
        if t == Connected {
          handleOut := Neg(newValue);
        }
      }
    }

    method InspectorOutPosition(edit: Option<Vec3>)
      modifies this
      ensures Value() == EditOut(old(Value()), edit)
    {
      var t := nodeType;
      if edit.Some? {
        var newValue := edit.value;
        handleOut := newValue;
        if t == Connected {
          handleIn := Neg(newValue);
        }
      }
    }

    /** `OnGUI` on a valid record: the popup's value and each field's edit. */
    method OnGui(picked: NodeType, positionEdit: Option<Vec3>, inEdit: Option<Vec3>, outEdit: Option<Vec3>)
      modifies this
      ensures Value() == DrawerGui(old(Value()), picked, positionEdit, inEdit, outEdit)
    {
      InspectorGizmoDrawMode(picked);
      InspectorWaypointPosition(positionEdit);
      InspectorInPosition(inEdit);
      InspectorOutPosition(outEdit);
    }
  }
}
