/** A waypoint of a Bezier path: its continuity type, its two control handles
    (offsets from the waypoint's position) and the snapshot of the handles the
    node takes to notice edits made behind its back. Writing one handle
    re-derives the other according to the continuity type. */
module Nodes {
  import opened Vectors

  /** How a node couples its two handles. */
  datatype NodeType = Connected | Symmetric | Broken

  /** The handles a node gets from `Reset`. */
  const DefaultIn := Vec3(0.0, 0.0, -0.5)
  const DefaultOut := Vec3(0.0, 0.0, 0.5)

  /** The fields of a node that its handle logic reads and writes, as a value. */
  datatype NodeState = NodeState(
    nodeType: NodeType,
    handleIn: Vec3,
    handleOut: Vec3,
    previousIn: Vec3,
    previousOut: Vec3)

  /** The snapshot agrees with the current handles: no pending edit. */
  predicate InSync(s: NodeState)
  {
    s.previousIn == s.handleIn && s.previousOut == s.handleOut
  }

  /** Handles that differ only in whether they are snapshotted. */
  predicate SameHandles(a: NodeState, b: NodeState)
  {
    a.nodeType == b.nodeType && a.handleIn == b.handleIn && a.handleOut == b.handleOut
  }

  /** The Connected rule: the dependent handle points opposite to `value` and
      keeps its own length, `-value.normalized * other.magnitude`. With no
      guard against a zero handle, the rule yields the zero vector whenever
      either factor is zero. */
  function ConnectedRule(ops: VectorOps, value: Vec3, other: Vec3): (r: Vec3)
    ensures ops.magnitude(other) == 0.0 ==> r == Zero
    ensures ops.normalized(value) == Zero ==> r == Zero
  {
    var direction := Neg(ops.normalized(value));
    var length := ops.magnitude(other);
    assert direction.x * 0.0 == 0.0 && direction.y * 0.0 == 0.0 && direction.z * 0.0 == 0.0;
    assert ops.normalized(value) == Zero ==> direction == Zero;
    assert 0.0 * length == 0.0;
    Scale(direction, length)
  }

  /** `TakeControlSnapshot`: remember the current handles. */
  function TakeSnapshot(s: NodeState): (r: NodeState)
    ensures InSync(r) && SameHandles(r, s)
  {
    s.(previousIn := s.handleIn, previousOut := s.handleOut)
  }

  /** `UpdateFromIncoming`: the incoming handle was edited; re-derive the
      outgoing one. A Broken node is left exactly as it is, snapshot included. */
  function FromIncoming(s: NodeState, ops: VectorOps): (r: NodeState)
    ensures r.nodeType == s.nodeType && r.handleIn == s.handleIn
    ensures s.nodeType == Broken ==> r == s
    ensures s.nodeType == Symmetric ==> r.handleOut == Neg(r.handleIn) && InSync(r)
    ensures s.nodeType == Connected ==>
              r.handleOut == ConnectedRule(ops, s.handleIn, s.handleOut) && InSync(r)
  {
    match s.nodeType
    case Connected => TakeSnapshot(s.(handleOut := ConnectedRule(ops, s.handleIn, s.handleOut)))
    case Symmetric => TakeSnapshot(s.(handleOut := Neg(s.handleIn)))
    case Broken => s
  }

  /** `UpdateFromOutgoing`: the mirror image of `FromIncoming`. */
  function FromOutgoing(s: NodeState, ops: VectorOps): (r: NodeState)
    ensures r.nodeType == s.nodeType && r.handleOut == s.handleOut
    ensures s.nodeType == Broken ==> r == s
    ensures s.nodeType == Symmetric ==> r.handleIn == Neg(r.handleOut) && InSync(r)
    ensures s.nodeType == Connected ==>
              r.handleIn == ConnectedRule(ops, s.handleOut, s.handleIn) && InSync(r)
  {
    match s.nodeType
    case Connected => TakeSnapshot(s.(handleIn := ConnectedRule(ops, s.handleOut, s.handleIn)))
    case Symmetric => TakeSnapshot(s.(handleIn := Neg(s.handleOut)))
    case Broken => s
  }

  /** The `In` setter: store `v`, then propagate from the incoming side. */
  function WithIn(s: NodeState, v: Vec3, ops: VectorOps): (r: NodeState)
    ensures r.handleIn == v && r.nodeType == s.nodeType
    ensures s.nodeType == Broken ==>
              r.handleOut == s.handleOut && r.previousIn == s.previousIn && r.previousOut == s.previousOut
    ensures s.nodeType == Symmetric ==> r.handleOut == Neg(v)
    ensures s.nodeType != Broken ==> InSync(r)
  {
    FromIncoming(s.(handleIn := v), ops)
  }

  /** The `Out` setter: store `v`, then propagate from the outgoing side. */
  function WithOut(s: NodeState, v: Vec3, ops: VectorOps): (r: NodeState)
    ensures r.handleOut == v && r.nodeType == s.nodeType
    ensures s.nodeType == Broken ==>
              r.handleIn == s.handleIn && r.previousIn == s.previousIn && r.previousOut == s.previousOut
    ensures s.nodeType == Symmetric ==> r.handleIn == Neg(v)
    ensures s.nodeType != Broken ==> InSync(r)
  {
    FromOutgoing(s.(handleOut := v), ops)
  }

  /** `Reset`: back to a Connected node with mirrored default handles. The
      snapshot is not retaken. */
  function ResetState(s: NodeState): (r: NodeState)
    ensures r.nodeType == Connected && r.handleIn == DefaultIn
    ensures r.handleOut == Neg(r.handleIn)
    ensures r.previousIn == s.previousIn && r.previousOut == s.previousOut
  {
    s.(nodeType := Connected, handleIn := DefaultIn, handleOut := DefaultOut)
  }

  /** `Update`, run once per frame: an incoming handle that differs from the
      snapshot wins over an outgoing one; afterwards the snapshot is retaken. */
  function UpdateState(s: NodeState, ops: VectorOps): (r: NodeState)
    ensures InSync(r) && r.nodeType == s.nodeType
    ensures s.previousIn != s.handleIn ==> SameHandles(r, FromIncoming(s, ops))
    ensures s.previousIn == s.handleIn && s.previousOut != s.handleOut ==>
              SameHandles(r, FromOutgoing(s, ops))
    ensures InSync(s) ==> r == s
  {
    var edited :=
      if s.previousIn != s.handleIn then FromIncoming(s, ops)
      else if s.previousOut != s.handleOut then FromOutgoing(s, ops)
      else s;
    TakeSnapshot(edited)
  }

  /** A second `Update` in a row does nothing. */
  lemma UpdateIdempotent(s: NodeState, ops: VectorOps)
    ensures UpdateState(UpdateState(s, ops), ops) == UpdateState(s, ops)
  {
  }

  /** A setter on a coupled node already snapshots, so the next `Update`
      finds no edit to propagate. */
  lemma SetterThenUpdate(s: NodeState, v: Vec3, ops: VectorOps)
    requires s.nodeType != Broken
    ensures UpdateState(WithIn(s, v, ops), ops) == WithIn(s, v, ops)
    ensures UpdateState(WithOut(s, v, ops), ops) == WithOut(s, v, ops)
  {
  }

  /** On a Broken node `Update` only retakes the snapshot. */
  lemma BrokenUpdateKeepsHandles(s: NodeState, ops: VectorOps)
    requires s.nodeType == Broken
    ensures UpdateState(s, ops) == TakeSnapshot(s)
  {
  }

  /** A Symmetric node whose handles mirror each other, or that has a pending
      edit on either side, has mirrored handles after `Update`. */
  lemma SymmetricUpdateMirrors(s: NodeState, ops: VectorOps)
    requires s.nodeType == Symmetric
    requires s.handleOut == Neg(s.handleIn) || !InSync(s)
    ensures UpdateState(s, ops).handleOut == Neg(UpdateState(s, ops).handleIn)
  {
    var r := UpdateState(s, ops);
    if s.previousIn == s.handleIn && s.previousOut != s.handleOut {
      assert r.handleIn == Neg(r.handleOut);
      NegSymmetric(r.handleIn, r.handleOut);
    }
  }

  /** With a lawful norm, writing a nonzero incoming handle `v` on a Connected
      node turns the outgoing handle into a non-positive multiple of `v`
      (collinear and opposite: `out * |v| == -v * |old out|`) whose length is
      the outgoing handle's old length. */
  lemma ConnectedInOpposes(s: NodeState, v: Vec3, ops: VectorOps)
    requires Lawful(ops) && s.nodeType == Connected && v != Zero
    ensures ops.magnitude(v) > 0.0 && ops.magnitude(s.handleOut) >= 0.0
    ensures Scale(WithIn(s, v, ops).handleOut, ops.magnitude(v)) == Scale(v, -ops.magnitude(s.handleOut))
    ensures ops.magnitude(WithIn(s, v, ops).handleOut) == ops.magnitude(s.handleOut)
  {
    ConnectedRuleOpposes(ops, v, s.handleOut);
  }

  /** The mirror image of `ConnectedInOpposes` for the outgoing handle. */
  lemma ConnectedOutOpposes(s: NodeState, v: Vec3, ops: VectorOps)
    requires Lawful(ops) && s.nodeType == Connected && v != Zero
    ensures ops.magnitude(v) > 0.0 && ops.magnitude(s.handleIn) >= 0.0
    ensures Scale(WithOut(s, v, ops).handleIn, ops.magnitude(v)) == Scale(v, -ops.magnitude(s.handleIn))
    ensures ops.magnitude(WithOut(s, v, ops).handleIn) == ops.magnitude(s.handleIn)
  {
    ConnectedRuleOpposes(ops, v, s.handleIn);
  }

  /** The Connected rule, read through a lawful norm. */
  lemma ConnectedRuleOpposes(ops: VectorOps, value: Vec3, other: Vec3)
    requires Lawful(ops) && value != Zero
    ensures ops.magnitude(value) > 0.0 && ops.magnitude(other) >= 0.0
    ensures Scale(ConnectedRule(ops, value, other), ops.magnitude(value)) == Scale(value, -ops.magnitude(other))
    ensures ops.magnitude(ConnectedRule(ops, value, other)) == ops.magnitude(other)
  {
    var m := ops.magnitude(value);
    var n := ops.magnitude(other);
    assert m > 0.0 && n >= 0.0 && ops.normalized(value) == Scale(value, 1.0 / m) by {
      LawfulAt(ops, value, 1.0);
      LawfulAt(ops, other, 1.0);
    }
    var k := n / m;
    var r := ConnectedRule(ops, value, other);
    assert r == Scale(value, -k) by {
      QuotientFacts(n, m);
      NegScale(value, 1.0 / m);
      ScaleScale(value, -(1.0 / m), n);
    }
    assert Scale(r, m) == Scale(value, -n) by {
      QuotientFacts(n, m);
      ScaleScale(value, -k, m);
    }
    assert ops.magnitude(r) == n by {
      LawfulAt(ops, value, -k);
      QuotientFacts(n, m);
    }
  }

  /** Under a lawful norm the Connected rule maps the default handles onto
      each other. */
  lemma DefaultsAreConnected(ops: VectorOps)
    requires Lawful(ops)
    ensures ConnectedRule(ops, DefaultIn, DefaultOut) == DefaultOut
    ensures ConnectedRule(ops, DefaultOut, DefaultIn) == DefaultIn
  {
    ConnectedRuleOnMirror(ops, DefaultIn, DefaultOut);
    ConnectedRuleOnMirror(ops, DefaultOut, DefaultIn);
  }

  /** For a nonzero handle and its exact mirror, the Connected rule gives back
      the mirror. */
  lemma ConnectedRuleOnMirror(ops: VectorOps, a: Vec3, b: Vec3)
    requires Lawful(ops) && a != Zero && b == Scale(a, -1.0)
    ensures ConnectedRule(ops, a, b) == b
  {
    var r := ConnectedRule(ops, a, b);
    var m := ops.magnitude(a);
    assert m > 0.0 && ops.magnitude(b) == m by {
      LawfulAt(ops, a, -1.0);
      assert Abs(-1.0) == 1.0;
    }
    assert Scale(r, m) == Scale(a, -m) by {
      ConnectedRuleOpposes(ops, a, b);
    }
    assert Scale(a, -m) == Scale(b, m) by {
      ScaleScale(a, -1.0, m);
    }
    ScaleCancel(r, b, m);
  }

  /** After `Reset`, the frame's `Update` leaves the default handles in place
      whichever side it propagates from, given a lawful norm. */
  lemma ResetIsStable(s: NodeState, ops: VectorOps)
    requires Lawful(ops)
    ensures UpdateState(ResetState(s), ops) == TakeSnapshot(ResetState(s))
  {
    DefaultsAreConnected(ops);
  }

  /** A waypoint component. `position` stands for the game object's transform
      position, which the node's handle logic never touches. */
  class BezierPathNode {
    var nodeType: NodeType
    var handleIn: Vec3
    var handleOut: Vec3
    var previousIn: Vec3
    var previousOut: Vec3
    var position: Vec3

    function State(): NodeState
      reads this
    {
      NodeState(nodeType, handleIn, handleOut, previousIn, previousOut)
    }

    /** A freshly added component: every serialized field at its zero value,
        which for the type is its first member, Connected. */
    constructor ()
      ensures State() == NodeState(Connected, Zero, Zero, Zero, Zero)
      ensures position == Zero
    {
      nodeType := Connected;
      handleIn, handleOut := Zero, Zero;
      previousIn, previousOut := Zero, Zero;
      position := Zero;
    }

    /** The `Type` setter: stores the type and re-derives nothing. */
    method SetType(t: NodeType)
      modifies this
      ensures State() == old(State()).(nodeType := t)
      ensures position == old(position)
    {
      nodeType := t;
    }

    /** The `In` setter. */
    method SetIn(v: Vec3, ops: VectorOps)
      modifies this
      ensures State() == WithIn(old(State()), v, ops)
      ensures handleIn == v && nodeType == old(nodeType) && position == old(position)
    {
      handleIn := v;
      UpdateFromIncoming(ops);
    }

    /** The `Out` setter. */
    method SetOut(v: Vec3, ops: VectorOps)
      modifies this
      ensures State() == WithOut(old(State()), v, ops)
      ensures handleOut == v && nodeType == old(nodeType) && position == old(position)
    {
      handleOut := v;
      UpdateFromOutgoing(ops);
    }

    method UpdateFromIncoming(ops: VectorOps)
      modifies this
      ensures State() == FromIncoming(old(State()), ops)
      ensures position == old(position)
    {
      var value := handleIn;
      if nodeType == Connected {
        handleOut := Scale(Neg(ops.normalized(value)), ops.magnitude(handleOut));
        TakeControlSnapshot();
      } else if nodeType == Symmetric {
        handleOut := Neg(value);
        TakeControlSnapshot();
      }
    }

    method UpdateFromOutgoing(ops: VectorOps)
      modifies this
      ensures State() == FromOutgoing(old(State()), ops)
      ensures position == old(position)
    {
      var value := handleOut;
      if nodeType == Connected {
        handleIn := Scale(Neg(ops.normalized(value)), ops.magnitude(handleIn));
        TakeControlSnapshot();
      } else if nodeType == Symmetric {
        handleIn := Neg(value);
        TakeControlSnapshot();
      }
    }

    method Reset()
      modifies this
      ensures State() == ResetState(old(State()))
      ensures position == old(position)
    {
      nodeType := Connected;
      handleIn := Vec3(0.0, 0.0, -0.5);
      handleOut := Vec3(0.0, 0.0, 0.5);
    }

    /** The per-frame change detection. */
    method Update(ops: VectorOps)
      modifies this
      ensures State() == UpdateState(old(State()), ops)
      ensures position == old(position)
    {
      if previousIn != handleIn {
        UpdateFromIncoming(ops);
      } else if previousOut != handleOut {
        UpdateFromOutgoing(ops);
      }
      TakeControlSnapshot();
    }

    method TakeControlSnapshot()
      modifies this
      ensures State() == TakeSnapshot(old(State()))
      ensures position == old(position)
    {
      previousIn := handleIn;
      previousOut := handleOut;
    }
  }
}
