/**
 * Positions as real triples and the rigid motions the docking loop applies
 * to a metal cluster: a translation by a vector, and a 3x3 matrix applied
 * about a fixed centre (`(p - c) @ R.T + c`). Distances are compared squared,
 * so no square root is taken.
 */
module Geometry {

  datatype Vec = Vec(x: real, y: real, z: real)

  /** A 3x3 matrix given by its rows. */
  datatype Mat3 = Mat3(r0: Vec, r1: Vec, r2: Vec)

  const Zero: Vec := Vec(0.0, 0.0, 0.0)

  function Add(a: Vec, b: Vec): (r: Vec) { Vec(a.x + b.x, a.y + b.y, a.z + b.z) }

  function Sub(a: Vec, b: Vec): (r: Vec) { Vec(a.x - b.x, a.y - b.y, a.z - b.z) }

  function Scale(k: real, a: Vec): (r: Vec) { Vec(k * a.x, k * a.y, k * a.z) }

  function Dot(a: Vec, b: Vec): (r: real) { a.x * b.x + a.y * b.y + a.z * b.z }

  /** The squared Euclidean length. */
  function SqNorm(a: Vec): (r: real) { Dot(a, a) }

  function SqDist(a: Vec, b: Vec): (r: real) { SqNorm(Sub(a, b)) }

  /** `R @ v`; applied to each row of `P` it is `P @ R.T`. */
  function Apply(m: Mat3, v: Vec): (r: Vec) { Vec(Dot(m.r0, v), Dot(m.r1, v), Dot(m.r2, v)) }

  /** The component-wise sum of a list of positions. */
  function Sum(ps: seq<Vec>): (r: Vec) {
    if ps == [] then Zero else Add(ps[0], Sum(ps[1..]))
  }

  /** `np.mean(ps, axis=0)` of a non-empty list. */
  function Mean(ps: seq<Vec>): (r: Vec)
    requires ps != []
  {
    Scale(1.0 / (|ps| as real), Sum(ps))
  }

  /** `positions + t`: every position moved by `t`. */
  function Shifted(ps: seq<Vec>, t: Vec): (r: seq<Vec>)
    ensures |r| == |ps|
    ensures forall i :: 0 <= i < |ps| ==> r[i] == Add(ps[i], t)
  {
    if ps == [] then [] else [Add(ps[0], t)] + Shifted(ps[1..], t)
  }

  /** `np.dot(ps - c, R.T) + c`: every position turned by `m` about `c`. */
  function RotatedAbout(m: Mat3, c: Vec, ps: seq<Vec>): (r: seq<Vec>)
    ensures |r| == |ps|
    ensures forall i :: 0 <= i < |ps| ==> r[i] == Add(Apply(m, Sub(ps[i], c)), c)
  {
    if ps == [] then [] else [Add(Apply(m, Sub(ps[0], c)), c)] + RotatedAbout(m, c, ps[1..])
  }

  /** A translation moves the chosen point onto the target, and leaves every
      difference between two positions as it was. */
  lemma ShiftedSpec(ps: seq<Vec>, k: nat, target: Vec)
    requires k < |ps|
    ensures Shifted(ps, Sub(target, ps[k]))[k] == target
    ensures forall i, j :: 0 <= i < |ps| && 0 <= j < |ps| ==>
      Sub(Shifted(ps, Sub(target, ps[k]))[i], Shifted(ps, Sub(target, ps[k]))[j]) == Sub(ps[i], ps[j])
  {
    var t := Sub(target, ps[k]);
    var s := Shifted(ps, t);
    forall i, j | 0 <= i < |ps| && 0 <= j < |ps| ensures Sub(s[i], s[j]) == Sub(ps[i], ps[j]) {
      assert s[i] == Add(ps[i], t) && s[j] == Add(ps[j], t);
    }
  }

  /** Whatever the matrix, a position at the centre stays at the centre. */
  lemma RotationFixesCentre(m: Mat3, c: Vec, ps: seq<Vec>, k: nat)
    requires k < |ps| && ps[k] == c
    ensures RotatedAbout(m, c, ps)[k] == c
  {
    assert Sub(ps[k], c) == Zero;
  }

  lemma ScaleSqNorm(k: real, a: Vec)
    ensures SqNorm(Scale(k, a)) == k * k * SqNorm(a)
  {
    assert (k * a.x) * (k * a.x) == k * k * (a.x * a.x);
    assert (k * a.y) * (k * a.y) == k * k * (a.y * a.y);
    assert (k * a.z) * (k * a.z) == k * k * (a.z * a.z);
  }

  /** Dividing a vector by its Euclidean length `n` gives a unit vector. */
  lemma Normalized(a: Vec, n: real)
    requires n > 0.0 && n * n == SqNorm(a)
    ensures SqNorm(Scale(1.0 / n, a)) == 1.0
  {
    ScaleSqNorm(1.0 / n, a);
    assert (1.0 / n) * n == 1.0;
    assert (1.0 / n) * (1.0 / n) * (n * n) == ((1.0 / n) * n) * ((1.0 / n) * n);
  }

  /** For a non-negative length `n` with square `sq` and a positive bound
      `eps`, `n < eps` holds exactly when `sq < eps * eps`. */
  lemma BelowBoundSquared(sq: real, n: real, eps: real)
    requires n >= 0.0 && n * n == sq && eps > 0.0
    ensures n < eps <==> sq < eps * eps
  {
    var square := eps * eps;
    var mixed := n * eps;
    if n < eps {
      assert sq <= mixed;
      assert mixed < square;
    } else {
      assert square <= mixed;
      assert mixed <= sq;
    }
  }
}
