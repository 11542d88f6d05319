/** `_ray_ellipsoid_intersect` of altavista/scenario.py over the reals: the first point of an oblate
    ellipsoid of revolution that a ray meets. */
module RayEllipsoid {
  import opened Base
  import opened Vectors

  /** p^2 weighted by 1 / a^2 across the axis and 1 / b^2 along it. */
  function Form(px: real, py: real, pz: real, dx: real, dy: real, dz: real, ia: real, ib: real): real {
    Term(px, dx, ia) + Term(py, dy, ia) + Term(pz, dz, ib)
  }

  function Term(p: real, d: real, weight: real): real { p * d * weight }

  /** x^2 / a^2 + y^2 / a^2 + z^2 / b^2 = 1 */
  ghost predicate OnEllipsoid(p: Vec, a: real, b: real)
    requires a > 0.0 && b > 0.0
  {
    p.x * p.x / (a * a) + p.y * p.y / (a * a) + p.z * p.z / (b * b) == 1.0
  }

  function At(origin: Vec, direction: Vec, t: real): Vec {
    Add(origin, Scale(t, direction))
  }

  /** The three coefficients of the quadratic in t, and its discriminant. */
  function A(d: Vec, ia: real, ib: real): real { Form(d.x, d.y, d.z, d.x, d.y, d.z, ia, ib) }

  function B(o: Vec, d: Vec, ia: real, ib: real): real { 2.0 * Form(o.x, o.y, o.z, d.x, d.y, d.z, ia, ib) }

  function C(o: Vec, ia: real, ib: real): real { Form(o.x, o.y, o.z, o.x, o.y, o.z, ia, ib) - 1.0 }

  function Disc(k2: real, k1: real, k0: real): real { k1 * k1 - 4.0 * k2 * k0 }

  function Near(k2: real, k1: real, sq: real): real
    requires k2 > 0.0
  {
    (-k1 - sq) / (2.0 * k2)
  }

  function Far(k2: real, k1: real, sq: real): real
    requires k2 > 0.0
  {
    (-k1 + sq) / (2.0 * k2)
  }

  /** min(ts) of the positive ones of two candidates. */
  function LeastPositive(t1: real, t2: real): Option<real> {
    if t1 > 0.0 && t2 > 0.0 then Some(if t2 < t1 then t2 else t1)
    else if t1 > 0.0 then Some(t1)
    else if t2 > 0.0 then Some(t2)
    else None
  }

  function Intersect(origin: Vec, direction: Vec, a: real, b: real, sqrt: real -> real): Option<Vec>
    requires a > 0.0 && b > 0.0 && direction != Vec(0.0, 0.0, 0.0) && IsSqrt(sqrt)
  {
    PositiveLeading(direction, a, b);
    var ia, ib := 1.0 / (a * a), 1.0 / (b * b);
    var k2, k1, k0 := A(direction, ia, ib), B(origin, direction, ia, ib), C(origin, ia, ib);
    var disc := Disc(k2, k1, k0);
    if disc < 0.0 then None else
    var sq := sqrt(disc);
    match LeastPositive(Near(k2, k1, sq), Far(k2, k1, sq))
    case None => None
    case Some(t) => Some(At(origin, direction, t))
  }

  // ---------------------------------------------------------------- theory

  lemma SquarePositive(x: real)
    ensures x * x >= 0.0 && (x != 0.0 ==> x * x > 0.0)
  {
  }

  lemma Inverse(a: real)
    requires a > 0.0
    ensures a * a > 0.0 && 1.0 / (a * a) > 0.0
  {
  }

  lemma TermPositive(x: real, k: real)
    requires k > 0.0
    ensures Term(x, x, k) >= 0.0 && (x != 0.0 ==> Term(x, x, k) > 0.0)
  {
    assert Term(x, x, k) == (x * x) * k;
    if x > 0.0 {
      Product(x, x * k);
    } else if x < 0.0 {
      Product(-x, -x * k);
    }
  }

  lemma Product(a: real, b: real)
    requires a > 0.0 && b > 0.0
    ensures a * b > 0.0
  {
  }

  lemma PositiveLeading(d: Vec, a: real, b: real)
    requires a > 0.0 && b > 0.0 && d != Vec(0.0, 0.0, 0.0)
    ensures A(d, 1.0 / (a * a), 1.0 / (b * b)) > 0.0
  {
    Inverse(a);
    Inverse(b);
    assert !(d.x == 0.0 && d.y == 0.0 && d.z == 0.0);
    FormPositive(d.x, d.y, d.z, 1.0 / (a * a), 1.0 / (b * b));
  }

  lemma FormPositive(x: real, y: real, z: real, ia: real, ib: real)
    requires ia > 0.0 && ib > 0.0 && !(x == 0.0 && y == 0.0 && z == 0.0)
    ensures Form(x, y, z, x, y, z, ia, ib) > 0.0
  {
    TermPositive(x, ia);
    TermPositive(y, ia);
    TermPositive(z, ib);
  }

  lemma FormAlong(px: real, py: real, pz: real, dx: real, dy: real, dz: real, ia: real, ib: real, t: real,
                  qx: real, qy: real, qz: real)
    requires qx == px + t * dx && qy == py + t * dy && qz == pz + t * dz
    ensures Form(qx, qy, qz, qx, qy, qz, ia, ib)
         == Form(dx, dy, dz, dx, dy, dz, ia, ib) * (t * t) + 2.0 * Form(px, py, pz, dx, dy, dz, ia, ib) * t
            + Form(px, py, pz, px, py, pz, ia, ib)
  {
    assert Form(px + t * dx, py + t * dy, pz + t * dz, px + t * dx, py + t * dy, pz + t * dz, ia, ib)
        == Form(dx, dy, dz, dx, dy, dz, ia, ib) * (t * t) + 2.0 * Form(px, py, pz, dx, dy, dz, ia, ib) * t
            + Form(px, py, pz, px, py, pz, ia, ib);
  }

  ghost predicate Root(k2: real, k1: real, k0: real, t: real) {
    k2 * (t * t) + k1 * t + k0 == 0.0
  }

  /** The point at t is on the ellipsoid exactly when t solves the quadratic. */
  lemma QuotientIsProduct(x: real, n: real)
    requires n > 0.0
    ensures x * x / n == Term(x, x, 1.0 / n)
  {
    var k := 1.0 / n;
    assert k * n == 1.0;
    assert x * x == (x * x) * k * n;
  }

  lemma OnEllipsoidIsForm(p: Vec, a: real, b: real)
    requires a > 0.0 && b > 0.0
    ensures OnEllipsoid(p, a, b) <==> Form(p.x, p.y, p.z, p.x, p.y, p.z, 1.0 / (a * a), 1.0 / (b * b)) == 1.0
  {
    Inverse(a);
    Inverse(b);
    QuotientIsProduct(p.x, a * a);
    QuotientIsProduct(p.y, a * a);
    QuotientIsProduct(p.z, b * b);
  }

  lemma OnEllipsoidIffRoot(o: Vec, d: Vec, a: real, b: real, t: real)
    requires a > 0.0 && b > 0.0
    ensures var ia, ib := 1.0 / (a * a), 1.0 / (b * b);
      OnEllipsoid(At(o, d, t), a, b) <==> Root(A(d, ia, ib), B(o, d, ia, ib), C(o, ia, ib), t)
  {
    var ia, ib := 1.0 / (a * a), 1.0 / (b * b);
    var q := At(o, d, t);
    OnEllipsoidIsForm(q, a, b);
    FormAlong(o.x, o.y, o.z, d.x, d.y, d.z, ia, ib, t, q.x, q.y, q.z);
  }

  /** Completing the square. */
  lemma RootSquare(k2: real, k1: real, k0: real, t: real)
    ensures (2.0 * k2 * t + k1) * (2.0 * k2 * t + k1) - Disc(k2, k1, k0) == 4.0 * k2 * (k2 * (t * t) + k1 * t + k0)
  {
  }

  /** A positive quadratic's roots are exactly the two numbers the code computes. */
  lemma RootsAre(k2: real, k1: real, k0: real, t: real, sq: real)
    requires k2 > 0.0 && sq >= 0.0 && sq * sq == Disc(k2, k1, k0)
    ensures Root(k2, k1, k0, t) <==> t == Near(k2, k1, sq) || t == Far(k2, k1, sq)
  {
    var u := 2.0 * k2 * t + k1;
    RootSquare(k2, k1, k0, t);
    Solved(2.0 * k2, t, -k1 - sq);
    Solved(2.0 * k2, t, -k1 + sq);
    if Root(k2, k1, k0, t) {
      assert (u - sq) * (u + sq) == 0.0;
      ZeroProduct(u - sq, u + sq);
    } else if u == sq || u == -sq {
      assert u * u == sq * sq;
      ZeroProduct(4.0 * k2, k2 * (t * t) + k1 * t + k0);
    }
  }

  lemma Solved(k: real, t: real, c: real)
    requires k > 0.0
    ensures t == c / k <==> k * t == c
  {
    assert k * (c / k) == c;
    if k * t == c {
      Cancel(k, t, c / k);
    }
  }

  lemma NoRoot(k2: real, k1: real, k0: real, t: real)
    requires k2 > 0.0 && Disc(k2, k1, k0) < 0.0
    ensures !Root(k2, k1, k0, t)
  {
    RootSquare(k2, k1, k0, t);
    SquarePositive(2.0 * k2 * t + k1);
  }

  /** The ray meets the ellipsoid at t. */
  ghost predicate Hits(o: Vec, d: Vec, a: real, b: real, t: real)
    requires a > 0.0 && b > 0.0
  {
    t > 0.0 && OnEllipsoid(Vec(o.x + t * d.x, o.y + t * d.y, o.z + t * d.z), a, b)
  }

  ghost predicate FirstHit(o: Vec, d: Vec, a: real, b: real, t: real)
    requires a > 0.0 && b > 0.0
  {
    Hits(o, d, a, b, t) && forall u :: Hits(o, d, a, b, u) ==> t <= u
  }

  lemma HitIffRoot(o: Vec, d: Vec, a: real, b: real, t: real)
    requires a > 0.0 && b > 0.0
    ensures var ia, ib := 1.0 / (a * a), 1.0 / (b * b);
      Hits(o, d, a, b, t) <==> t > 0.0 && Root(A(d, ia, ib), B(o, d, ia, ib), C(o, ia, ib), t)
  {
    hide OnEllipsoid, A, B, C, Root;
    OnEllipsoidIffRoot(o, d, a, b, t);
    AtIs(o, d, t);
  }

  lemma AtIs(o: Vec, d: Vec, t: real)
    ensures At(o, d, t) == Vec(o.x + t * d.x, o.y + t * d.y, o.z + t * d.z)
  {
    var s := Scale(t, d);
    assert s.x == t * d.x && s.y == t * d.y && s.z == t * d.z;
  }

  /** None exactly when no point ahead of the origin is on the ellipsoid; otherwise the first one. */
  lemma IntersectIsFirstHit(o: Vec, d: Vec, a: real, b: real, sqrt: real -> real)
    requires a > 0.0 && b > 0.0 && d != Vec(0.0, 0.0, 0.0) && IsSqrt(sqrt)
    ensures Intersect(o, d, a, b, sqrt) == None <==> forall t :: !Hits(o, d, a, b, t)
    ensures Intersect(o, d, a, b, sqrt).Some? ==>
      exists t ::
        FirstHit(o, d, a, b, t)
        && Intersect(o, d, a, b, sqrt).value == Vec(o.x + t * d.x, o.y + t * d.y, o.z + t * d.z)
  {
    hide A, B, C, Disc, Near, Far, Root, Hits, At;
    PositiveLeading(d, a, b);
    var ia, ib := 1.0 / (a * a), 1.0 / (b * b);
    var k2, k1, k0 := A(d, ia, ib), B(o, d, ia, ib), C(o, ia, ib);
    if Disc(k2, k1, k0) < 0.0 {
      forall t ensures !Hits(o, d, a, b, t) {
        HitIffRoot(o, d, a, b, t);
        NoRoot(k2, k1, k0, t);
      }
    } else {
      var sq := sqrt(Disc(k2, k1, k0));
      var t1, t2 := Near(k2, k1, sq), Far(k2, k1, sq);
      forall t ensures Hits(o, d, a, b, t) <==> t > 0.0 && (t == t1 || t == t2) {
        HitIffRoot(o, d, a, b, t);
        RootsAre(k2, k1, k0, t, sq);
      }
      if LeastPositive(t1, t2).Some? {
        assert FirstHit(o, d, a, b, LeastPositive(t1, t2).value);
        AtIs(o, d, LeastPositive(t1, t2).value);
      }
    }
  }
}
