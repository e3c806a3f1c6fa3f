/** Three-component vectors over the reals, standing in for Unity's Vector3.
    Arithmetic is exact here; the engine's single-precision rounding and its
    tolerance-based equality are not modelled. */
module Vectors {

  datatype Vec3 = Vec3(x: real, y: real, z: real)

  const Zero := Vec3(0.0, 0.0, 0.0)

  /** Unary minus, `-v`. */
  function Neg(v: Vec3): (r: Vec3)
    ensures Add(v, r) == Zero
  {
    Vec3(-v.x, -v.y, -v.z)
  }

  /** Component-wise sum, `a + b`. */
  function Add(a: Vec3, b: Vec3): Vec3
  {
    Vec3(a.x + b.x, a.y + b.y, a.z + b.z)
  }

  /** Scalar product, `v * k`. */
  function Scale(v: Vec3, k: real): Vec3
  {
    Vec3(v.x * k, v.y * k, v.z * k)
  }

  function Abs(k: real): real
  {
    if k < 0.0 then -k else k
  }

  /** Negation is its own inverse, so "out == -in" and "in == -out" say the same. */
  lemma NegInvolutive(v: Vec3)
    ensures Neg(Neg(v)) == v
  {
  }

  lemma NegSymmetric(a: Vec3, b: Vec3)
    ensures a == Neg(b) <==> b == Neg(a)
  {
    NegInvolutive(a);
    NegInvolutive(b);
  }

  /** The engine's `Vector3.normalized` and `Vector3.magnitude`, which need a
      square root and are library code: the model takes them as parameters. */
  datatype VectorOps = VectorOps(normalized: Vec3 -> Vec3, magnitude: Vec3 -> real)

  /** The laws a Euclidean norm and its normalisation obey at `v` (scaled by
      `k`). Nothing is said about `normalized(Zero)`. */
  ghost predicate LawsAt(ops: VectorOps, v: Vec3, k: real)
  {
    && ops.magnitude(v) >= 0.0
    && (v != Zero ==> ops.magnitude(v) > 0.0)
    && (v != Zero ==> ops.normalized(v) == Scale(v, 1.0 / ops.magnitude(v)))
    && ops.magnitude(Scale(v, k)) == Abs(k) * ops.magnitude(v)
  }

  /** `ops` behaves like the Euclidean norm everywhere. */
  ghost predicate Lawful(ops: VectorOps)
  {
    forall v, k :: LawsAt(ops, v, k)
  }

  lemma NegScale(v: Vec3, a: real)
    ensures Neg(Scale(v, a)) == Scale(v, -a)
  {
  }

  lemma ScaleScale(v: Vec3, a: real, b: real)
    ensures Scale(Scale(v, a), b) == Scale(v, a * b)
  {
    assert v.x * a * b == v.x * (a * b);
    assert v.y * a * b == v.y * (a * b);
    assert v.z * a * b == v.z * (a * b);
  }

  /** Scaling by a nonzero factor is injective. */
  lemma ScaleCancel(a: Vec3, b: Vec3, m: real)
    requires m != 0.0 && Scale(a, m) == Scale(b, m)
    ensures a == b
  {
    assert a.x * m == b.x * m && a.y * m == b.y * m && a.z * m == b.z * m;
    assert a.x == b.x && a.y == b.y && a.z == b.z;
  }

  /** The quotient arithmetic behind "keeps its own length". */
  lemma QuotientFacts(n: real, m: real)
    requires n >= 0.0 && m > 0.0
    ensures n / m >= 0.0 && Abs(-(n / m)) * m == n && -(1.0 / m) * n == -(n / m)
    ensures -(n / m) * m == -n
  {
  }

  /** The instances of `Lawful` that a single vector needs. */
  lemma LawfulAt(ops: VectorOps, v: Vec3, k: real)
    requires Lawful(ops)
    ensures ops.magnitude(v) >= 0.0
    ensures v != Zero ==> ops.magnitude(v) > 0.0
    ensures v != Zero ==> ops.normalized(v) == Scale(v, 1.0 / ops.magnitude(v))
    ensures ops.magnitude(Scale(v, k)) == Abs(k) * ops.magnitude(v)
  {
    assert LawsAt(ops, v, k);
  }

  /** The scaling law alone fixes the length of the zero vector at 0. */
  lemma LawfulZeroMagnitude(ops: VectorOps)
    requires Lawful(ops)
    ensures ops.magnitude(Zero) == 0.0
  {
    LawfulAt(ops, Zero, 0.0);
    assert Scale(Zero, 0.0) == Zero;
  }
}
