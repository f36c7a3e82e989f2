/** Planar points, the vehicle pose and the world-to-vehicle frame transform.

    The node builds the homogeneous matrix of the vehicle pose from the
    cosine and sine of the yaw angle and the position, inverts it with a
    general matrix inverse and applies the inverse to each path point.
    Here the pose carries the cosine and sine themselves (the trigonometry
    is outside the model) and the inverse is written in closed form; the
    lemmas below show that the closed form is the two-sided inverse of the
    pose matrix, so it is what a general inverse returns. */
module Geometry {

  /** A point in the plane: world frame, or vehicle frame where x is forward and y is left. */
  datatype Point = Point(x: real, y: real)

  /** Vehicle pose: position (x, y) and heading given by its cosine c and sine s. */
  datatype Pose = Pose(x: real, y: real, c: real, s: real)

  /** The heading of a pose is a rotation: (c, s) lies on the unit circle. */
  predicate Unit(p: Pose) {
    p.c * p.c + p.s * p.s == 1.0
  }

  /** Squared Euclidean norm; the distance tests compare squares, so no square root is needed. */
  function SqNorm(p: Point): real {
    p.x * p.x + p.y * p.y
  }

  /** A homogeneous 2D transform [[a, b, tx], [c, d, ty], [0, 0, 1]]; the last row is implicit. */
  datatype Affine = Affine(a: real, b: real, tx: real, c: real, d: real, ty: real)

  const Identity := Affine(1.0, 0.0, 0.0, 0.0, 1.0, 0.0)

  /** Matrix product m * n of two homogeneous transforms. */
  function Compose(m: Affine, n: Affine): Affine {
    Affine(m.a * n.a + m.b * n.c, m.a * n.b + m.b * n.d, m.a * n.tx + m.b * n.ty + m.tx,
           m.c * n.a + m.d * n.c, m.c * n.b + m.d * n.d, m.c * n.tx + m.d * n.ty + m.ty)
  }

  /** Applies a homogeneous transform to the point (p.x, p.y, 1). */
  function Apply(m: Affine, p: Point): Point {
    Point(m.a * p.x + m.b * p.y + m.tx, m.c * p.x + m.d * p.y + m.ty)
  }

  /** The vehicle-to-world matrix of a pose, as the node builds it. */
  function PoseMatrix(p: Pose): Affine {
    Affine(p.c, -p.s, p.x, p.s, p.c, p.y)
  }

  /** Closed-form inverse of PoseMatrix: the transposed rotation and the rotated, negated translation. */
  function InverseMatrix(p: Pose): Affine {
    Affine(p.c, p.s, -(p.c * p.x + p.s * p.y), -p.s, p.c, p.s * p.x - p.c * p.y)
  }

  /** World point to vehicle frame. */
  function ToLocal(pose: Pose, p: Point): Point {
    Apply(InverseMatrix(pose), p)
  }

  /** Vehicle-frame point to world frame. */
  function ToWorld(pose: Pose, q: Point): Point {
    Apply(PoseMatrix(pose), q)
  }

  /** Every point of a world-frame path, in the vehicle frame, in path order. */
  function Localize(pose: Pose, path: seq<Point>): (local: seq<Point>)
    ensures |local| == |path|
  {
    seq(|path|, i requires 0 <= i < |path| => ToLocal(pose, path[i]))
  }

  /** Applying a product is applying its factors one after the other. */
  lemma ApplyCompose(m: Affine, n: Affine, p: Point)
    ensures Apply(Compose(m, n), p) == Apply(m, Apply(n, p))
  {
    var q := Apply(n, p);
    calc {
      Apply(Compose(m, n), p).x;
      (m.a * n.a + m.b * n.c) * p.x + (m.a * n.b + m.b * n.d) * p.y + (m.a * n.tx + m.b * n.ty + m.tx);
      m.a * (n.a * p.x + n.b * p.y + n.tx) + m.b * (n.c * p.x + n.d * p.y + n.ty) + m.tx;
      Apply(m, q).x;
    }
    calc {
      Apply(Compose(m, n), p).y;
      (m.c * n.a + m.d * n.c) * p.x + (m.c * n.b + m.d * n.d) * p.y + (m.c * n.tx + m.d * n.ty + m.ty);
      m.c * (n.a * p.x + n.b * p.y + n.tx) + m.d * (n.c * p.x + n.d * p.y + n.ty) + m.ty;
      Apply(m, q).y;
    }
  }

  /** For a unit heading the closed form is the two-sided inverse of the pose matrix. */
  lemma InverseMatrixIsInverse(p: Pose)
    requires Unit(p)
    ensures Compose(PoseMatrix(p), InverseMatrix(p)) == Identity
    ensures Compose(InverseMatrix(p), PoseMatrix(p)) == Identity
  {
    var c, s, x, y := p.c, p.s, p.x, p.y;
    assert c * (-(c * x + s * y)) + (-s) * (s * x - c * y) + x == x - (c * c + s * s) * x;
    assert s * (-(c * x + s * y)) + c * (s * x - c * y) + y == y - (c * c + s * s) * y;
    assert c * x + s * y + -(c * x + s * y) == 0.0;
    assert -s * x + c * y + (s * x - c * y) == 0.0;
  }

  /** Taking a world point to the vehicle frame and back gives the point again. */
  lemma LocalThenWorld(pose: Pose, p: Point)
    requires Unit(pose)
    ensures ToWorld(pose, ToLocal(pose, p)) == p
  {
    InverseMatrixIsInverse(pose);
    ApplyCompose(PoseMatrix(pose), InverseMatrix(pose), p);
  }

  /** Taking a vehicle-frame point to the world and back gives the point again. */
  lemma WorldThenLocal(pose: Pose, q: Point)
    requires Unit(pose)
    ensures ToLocal(pose, ToWorld(pose, q)) == q
  {
    InverseMatrixIsInverse(pose);
    ApplyCompose(InverseMatrix(pose), PoseMatrix(pose), q);
  }

  /** The transform is rigid: a point's distance from the vehicle is the same in both frames. */
  lemma ToLocalKeepsDistance(pose: Pose, p: Point)
    requires Unit(pose)
    ensures SqNorm(ToLocal(pose, p)) == SqNorm(Point(p.x - pose.x, p.y - pose.y))
  {
    var c, s := pose.c, pose.s;
    var dx, dy := p.x - pose.x, p.y - pose.y;
    var q := ToLocal(pose, p);
    assert q.x == c * dx + s * dy;
    assert q.y == -s * dx + c * dy;
    calc {
      SqNorm(q);
      (c * dx + s * dy) * (c * dx + s * dy) + (-s * dx + c * dy) * (-s * dx + c * dy);
      (c * c + s * s) * (dx * dx) + (c * c + s * s) * (dy * dy);
      dx * dx + dy * dy;
    }
  }
}
