/** Orthonormal bases built from two vectors: the VNB branch of `Scenario.maneuver` and
    `_cone_ray_directions`, both of altavista/scenario.py, over the reals. */
module Directions {
  import opened Base
  import opened Vectors
  import opened Rotation

  /** [c / n for c in a] */
  function Over(a: Vec, n: real): Vec
    requires n != 0.0
  {
    Vec(a.x / n, a.y / n, a.z / n)
  }

  function Length(a: Vec, sqrt: real -> real): real
  {
    sqrt(Dot(a, a))
  }

  function Mix(a: real, b: real, c: real, x: real, y: real, z: real): real {
    a * x + b * y + c * z
  }

  /** a U + b V + c W */
  function Combine(k: Vec, u: Vec, v: Vec, w: Vec): Vec {
    Vec(Mix(k.x, k.y, k.z, u.x, v.x, w.x), Mix(k.x, k.y, k.z, u.y, v.y, w.y), Mix(k.x, k.y, k.z, u.z, v.z, w.z))
  }

  // ---------------------------------------------------------------- the code

  datatype Basis = Basis(v: Vec, n: Vec, b: Vec)

  /** The V, N, B axes; None is the ZeroDivisionError of a zero velocity or a zero angular momentum. */
  function Vnb(r: Vec, v: Vec, sqrt: real -> real): Option<Basis>
  {
    var vn := Length(v, sqrt);
    if vn == 0.0 then None else
    var V := Over(v, vn);
    var h := Cross(r, v);
    var hn := Length(h, sqrt);
    if hn == 0.0 then None else
    var N := Over(h, hn);
    Some(Basis(V, N, Cross(V, N)))
  }

  /** The inertial delta-v of the VNB branch. */
  function Burn(r: Vec, v: Vec, dv: Vec, sqrt: real -> real): Option<Vec> {
    match Vnb(r, v, sqrt)
    case None => None
    case Some(f) => Some(Combine(dv, f.v, f.n, f.b))
  }

  /** The boresight axis and the two axes across it; the boresight is not the zero vector. */
  function ConeBasis(boresight: Vec, sqrt: real -> real): Basis
    requires IsSqrt(sqrt) && Dot(boresight, boresight) != 0.0
  {
    UnitOver(boresight, sqrt);
    var b := Over(boresight, Length(boresight, sqrt));
    var arb := if -0.9 < b.x < 0.9 then Vec(1.0, 0.0, 0.0) else Vec(0.0, 1.0, 0.0);
    NotParallel(b);
    UnitOver(Cross(b, arb), sqrt);
    var u := Over(Cross(b, arb), Length(Cross(b, arb), sqrt));
    Basis(b, u, Cross(b, u))
  }

  /** One ray: ca b + sa (c u + s v) for the half angle's (ca, sa) and the azimuth's (c, s). */
  function ConeRay(f: Basis, ca: real, sa: real, c: real, s: real): Vec {
    Combine(Vec(ca, sa * c, sa * s), f.v, f.n, f.b)
  }

  // ---------------------------------------------------------------- the theory

  lemma PositiveLength(a: Vec, sqrt: real -> real)
    requires IsSqrt(sqrt) && Dot(a, a) != 0.0
    ensures Length(a, sqrt) > 0.0 && Length(a, sqrt) * Length(a, sqrt) == Dot(a, a)
  {
    assert a.x * a.x >= 0.0 && a.y * a.y >= 0.0 && a.z * a.z >= 0.0;
    assert Dot(a, a) >= 0.0;
  }

  lemma DotOver(a: Vec, b: Vec, n: real, m: real)
    requires n != 0.0 && m != 0.0
    ensures Dot(Over(a, n), Over(b, m)) * (n * m) == Dot(a, b)
  {
    Quotients(a.x, n, b.x, m);
    Quotients(a.y, n, b.y, m);
    Quotients(a.z, n, b.z, m);
  }

  lemma Quotients(a: real, n: real, b: real, m: real)
    requires n != 0.0 && m != 0.0
    ensures (a / n) * (b / m) * (n * m) == a * b
  {
    var p, q := a / n, b / m;
    assert p * n == a && q * m == b;
    assert p * q * (n * m) == (p * n) * (q * m);
  }

  lemma UnitOver(a: Vec, sqrt: real -> real)
    requires IsSqrt(sqrt) && Dot(a, a) != 0.0
    ensures Length(a, sqrt) > 0.0 && Unit(Over(a, Length(a, sqrt)))
  {
    PositiveLength(a, sqrt);
    var n := Length(a, sqrt);
    DotOver(a, a, n, n);
    Cancel(n * n, Dot(Over(a, n), Over(a, n)), 1.0);
  }

  /** Two orthogonal unit vectors and their cross product are a right-handed orthonormal basis. */
  lemma CompletesBasis(a: Vec, b: Vec)
    requires Unit(a) && Unit(b) && Dot(a, b) == 0.0
    ensures IsRotation(Mat(a, b, Cross(a, b)))
  {
    Lagrange(a, b);
    CrossIsOrthogonal(a, b);
  }

  lemma CombineDot(k: Vec, u: Vec, v: Vec, w: Vec, a: Vec)
    ensures Dot(Combine(k, u, v, w), a) == Mix(k.x, k.y, k.z, Dot(u, a), Dot(v, a), Dot(w, a))
  {
  }

  lemma DotSymmetric(a: Vec, b: Vec)
    ensures Dot(a, b) == Dot(b, a)
  {
  }

  /** In an orthonormal basis a combination has its own coefficients as components, and their length. */
  lemma CombineInBasis(k: Vec, m: Mat)
    requires IsRotation(m)
    ensures var d := Combine(k, m.r0, m.r1, m.r2);
      Dot(d, m.r0) == k.x && Dot(d, m.r1) == k.y && Dot(d, m.r2) == k.z && Dot(d, d) == Dot(k, k)
  {
    var d := Combine(k, m.r0, m.r1, m.r2);
    CombineDot(k, m.r0, m.r1, m.r2, m.r0);
    CombineDot(k, m.r0, m.r1, m.r2, m.r1);
    CombineDot(k, m.r0, m.r1, m.r2, m.r2);
    CombineDot(k, m.r0, m.r1, m.r2, d);
    DotSymmetric(m.r0, d);
    DotSymmetric(m.r1, d);
    DotSymmetric(m.r2, d);
    DotSymmetric(m.r0, m.r1);
    DotSymmetric(m.r0, m.r2);
    DotSymmetric(m.r1, m.r2);
  }

  lemma DotWithOver(a: Vec, n: real, b: Vec)
    requires n != 0.0
    ensures Dot(Over(a, n), b) * n == Dot(a, b)
  {
    DotOver(a, b, n, 1.0);
    assert Over(b, 1.0) == b;
  }

  lemma ParallelToItself(a: Vec, n: real)
    requires n != 0.0
    ensures Cross(Over(a, n), a) == Vec(0.0, 0.0, 0.0)
  {
    Proportional(a.x, a.y, n);
    Proportional(a.y, a.z, n);
    Proportional(a.z, a.x, n);
  }

  lemma Proportional(a: real, b: real, n: real)
    requires n != 0.0
    ensures Minor(a / n, b / n, a, b) == 0.0
  {
    var p, q := a / n, b / n;
    assert p * n == a && q * n == b;
    assert p * b == p * (q * n) && q * a == q * (p * n);
  }

  lemma Orthogonalised(a: Vec, n: real, b: Vec, m: real)
    requires n > 0.0 && m > 0.0 && Dot(a, b) == 0.0
    ensures Dot(Over(a, n), Over(b, m)) == 0.0
  {
    DotOver(a, b, n, m);
    ZeroProduct(Dot(Over(a, n), Over(b, m)), n * m);
  }

  lemma AlongOver(a: Vec, sqrt: real -> real)
    requires IsSqrt(sqrt) && Dot(a, a) != 0.0
    ensures Length(a, sqrt) > 0.0 && Dot(Over(a, Length(a, sqrt)), a) > 0.0
  {
    PositiveLength(a, sqrt);
    var n := Length(a, sqrt);
    DotWithOver(a, n, a);
    Cancel(n, Dot(Over(a, n), a), n);
  }

  lemma AcrossOver(a: Vec, n: real, b: Vec)
    requires n > 0.0 && Dot(a, b) == 0.0
    ensures Dot(Over(a, n), b) == 0.0
  {
    DotWithOver(a, n, b);
    ZeroProduct(Dot(Over(a, n), b), n);
  }

  lemma NonZero(a: Vec)
    requires a != Vec(0.0, 0.0, 0.0)
    ensures Dot(a, a) != 0.0
  {
    if Dot(a, a) == 0.0 {
      SquaresVanish(a);
    }
  }

  lemma NotParallel(b: Vec)
    requires Unit(b)
    ensures var arb := if -0.9 < b.x < 0.9 then Vec(1.0, 0.0, 0.0) else Vec(0.0, 1.0, 0.0);
      Dot(Cross(b, arb), Cross(b, arb)) != 0.0
  {
    if -0.9 < b.x < 0.9 {
      InsideSquare(b.x);
      assert Cross(b, Vec(1.0, 0.0, 0.0)) == Vec(0.0, b.z, -b.y);
      assert Dot(Vec(0.0, b.z, -b.y), Vec(0.0, b.z, -b.y)) == b.y * b.y + b.z * b.z;
    } else {
      OutsideSquare(b.x);
      assert Cross(b, Vec(0.0, 1.0, 0.0)) == Vec(-b.z, 0.0, b.x);
      assert Dot(Vec(-b.z, 0.0, b.x), Vec(-b.z, 0.0, b.x)) == b.z * b.z + b.x * b.x;
    }
  }

  lemma InsideSquare(x: real)
    requires -0.9 < x < 0.9
    ensures x * x < 1.0
  {
    assert (0.9 - x) * (0.9 + x) > 0.0;
  }

  lemma OutsideSquare(x: real)
    requires !(-0.9 < x < 0.9)
    ensures x * x > 0.0
  {
  }

  /** The VNB axes exist exactly when position and velocity are not parallel. */
  lemma VnbDefined(r: Vec, v: Vec, sqrt: real -> real)
    requires IsSqrt(sqrt)
    ensures Vnb(r, v, sqrt).Some? <==> Cross(r, v) != Vec(0.0, 0.0, 0.0)
    ensures Vnb(r, v, sqrt).Some? ==> Dot(v, v) != 0.0 && Dot(Cross(r, v), Cross(r, v)) != 0.0
  {
    var h := Cross(r, v);
    if v == Vec(0.0, 0.0, 0.0) {
      assert h == Vec(0.0, 0.0, 0.0);
    }
    if h == Vec(0.0, 0.0, 0.0) {
      SameSquare(sqrt(0.0), 0.0);
    } else {
      NonZero(v);
      NonZero(h);
      PositiveLength(v, sqrt);
      PositiveLength(h, sqrt);
    }
  }

  /** They are orthonormal and right-handed, V along the velocity, N along the angular momentum. */
  lemma VnbAxes(r: Vec, v: Vec, sqrt: real -> real)
    requires IsSqrt(sqrt) && Vnb(r, v, sqrt).Some?
    ensures var f := Vnb(r, v, sqrt).value;
      && IsRotation(Mat(f.v, f.n, f.b))
      && Dot(f.v, v) > 0.0 && Cross(f.v, v) == Vec(0.0, 0.0, 0.0)
      && Dot(f.n, Cross(r, v)) > 0.0 && Dot(f.n, r) == 0.0 && Dot(f.n, v) == 0.0
  {
    VnbDefined(r, v, sqrt);
    var h := Cross(r, v);
    UnitOver(v, sqrt);
    UnitOver(h, sqrt);
    AlongOver(v, sqrt);
    AlongOver(h, sqrt);
    var vn, hn := Length(v, sqrt), Length(h, sqrt);
    CrossIsOrthogonal(r, v);
    DotSymmetric(h, r);
    DotSymmetric(h, v);
    Orthogonalised(v, vn, h, hn);
    ParallelToItself(v, vn);
    AcrossOver(h, hn, r);
    AcrossOver(h, hn, v);
    CompletesBasis(Over(v, vn), Over(h, hn));
  }

  /** A VNB burn has the commanded components on the V, N and B axes, so the magnitude reported in the
      event is exactly the commanded one. */
  lemma BurnIsAsCommanded(r: Vec, v: Vec, dv: Vec, sqrt: real -> real)
    requires IsSqrt(sqrt) && Cross(r, v) != Vec(0.0, 0.0, 0.0)
    ensures Burn(r, v, dv, sqrt).Some?
    ensures var f, d := Vnb(r, v, sqrt).value, Burn(r, v, dv, sqrt).value;
      Dot(d, f.v) == dv.x && Dot(d, f.n) == dv.y && Dot(d, f.b) == dv.z && Length(d, sqrt) == Length(dv, sqrt)
  {
    VnbDefined(r, v, sqrt);
    VnbAxes(r, v, sqrt);
    var f := Vnb(r, v, sqrt).value;
    CombineInBasis(dv, Mat(f.v, f.n, f.b));
  }

  lemma ConeAxes(boresight: Vec, sqrt: real -> real)
    requires IsSqrt(sqrt) && Dot(boresight, boresight) != 0.0
    ensures var f := ConeBasis(boresight, sqrt);
      IsRotation(Mat(f.v, f.n, f.b)) && f.v == Over(boresight, Length(boresight, sqrt))
  {
    UnitOver(boresight, sqrt);
    var b := Over(boresight, Length(boresight, sqrt));
    var arb := if -0.9 < b.x < 0.9 then Vec(1.0, 0.0, 0.0) else Vec(0.0, 1.0, 0.0);
    NotParallel(b);
    UnitOver(Cross(b, arb), sqrt);
    CrossIsOrthogonal(b, arb);
    DotSymmetric(b, Cross(b, arb));
    AcrossOver(Cross(b, arb), Length(Cross(b, arb), sqrt), b);
    DotSymmetric(b, ConeBasis(boresight, sqrt).n);
    CompletesBasis(b, ConeBasis(boresight, sqrt).n);
  }

  /** Every ray of the cone is a unit vector at exactly the half angle from the boresight. */
  lemma ConeRayAtHalfAngle(boresight: Vec, sqrt: real -> real, ca: real, sa: real, c: real, s: real)
    requires IsSqrt(sqrt) && Dot(boresight, boresight) != 0.0
    requires ca * ca + sa * sa == 1.0 && c * c + s * s == 1.0
    ensures var f := ConeBasis(boresight, sqrt);
      Unit(ConeRay(f, ca, sa, c, s)) && Dot(ConeRay(f, ca, sa, c, s), f.v) == ca
      && Dot(ConeRay(f, ca, sa, c, s), boresight) == ca * Length(boresight, sqrt)
  {
    ConeAxes(boresight, sqrt);
    var f := ConeBasis(boresight, sqrt);
    var k := Vec(ca, sa * c, sa * s);
    var d := ConeRay(f, ca, sa, c, s);
    CombineInBasis(k, Mat(f.v, f.n, f.b));
    UnitCoefficients(ca, sa, c, s);
    PositiveLength(boresight, sqrt);
    var n := Length(boresight, sqrt);
    DotSymmetric(d, f.v);
    DotSymmetric(d, boresight);
    DotWithOver(boresight, n, d);
    Substitute(Dot(Over(boresight, n), d), ca, n, Dot(boresight, d));
  }

  /** Combinations in an orthonormal basis have the inner product of their coefficients. */
  lemma CombinationsDot(k: Vec, l: Vec, m: Mat)
    requires IsRotation(m)
    ensures Dot(Combine(k, m.r0, m.r1, m.r2), Combine(l, m.r0, m.r1, m.r2)) == Dot(k, l)
  {
    var d := Combine(l, m.r0, m.r1, m.r2);
    CombineInBasis(l, m);
    CombineDot(k, m.r0, m.r1, m.r2, d);
    DotSymmetric(m.r0, d);
    DotSymmetric(m.r1, d);
    DotSymmetric(m.r2, d);
  }

  lemma CrossCombine(v: Vec, n: Vec, b: Vec, k: Vec)
    ensures Cross(v, Combine(k, v, n, b)) == Add(Scale(k.y, Cross(v, n)), Scale(k.z, Cross(v, b)))
  {
    MinorMix(v.y, v.z, k, n.y, n.z, b.y, b.z);
    MinorMix(v.z, v.x, k, n.z, n.x, b.z, b.x);
    MinorMix(v.x, v.y, k, n.x, n.y, b.x, b.y);
  }

  lemma MinorMix(a: real, b: real, k: Vec, n: real, m: real, p: real, q: real)
    ensures Minor(a, b, Mix(k.x, k.y, k.z, a, n, p), Mix(k.x, k.y, k.z, b, m, q))
         == k.y * Minor(a, b, n, m) + k.z * Minor(a, b, p, q)
  {
  }

  /** v x (v x n) = -n for orthogonal v and n, v a unit. */
  lemma CrossTwice(v: Vec, n: Vec)
    requires Unit(v) && Dot(v, n) == 0.0
    ensures Cross(v, Cross(v, n)) == Scale(-1.0, n)
  {
    hide Minor;
    ComponentTwice(v.x, v.y, v.z, n.x, n.y, n.z);
    ComponentTwice(v.y, v.z, v.x, n.y, n.z, n.x);
    ComponentTwice(v.z, v.x, v.y, n.z, n.x, n.y);
  }

  lemma ComponentTwice(x: real, y: real, z: real, a: real, b: real, c: real)
    requires x * x + y * y + z * z == 1.0 && x * a + y * b + z * c == 0.0
    ensures Minor(y, z, Minor(z, x, c, a), Minor(x, y, a, b)) == -1.0 * a
  {
    Expanded(x, y, z, a, b, c);
    Vanish(x, x * a + y * b + z * c);
    hide Minor;
    assert a * (x * x + y * y + z * z) == a by { One(a, x * x + y * y + z * z); }
  }

  lemma One(a: real, b: real)
    requires b == 1.0
    ensures a * b == a
  {
  }

  lemma Vanish(a: real, d: real)
    requires d == 0.0
    ensures a * d == 0.0
  {
  }

  /** One component of v x (v x n) = v (v . n) - n (v . v). */
  lemma Expanded(x: real, y: real, z: real, a: real, b: real, c: real)
    ensures Minor(y, z, Minor(z, x, c, a), Minor(x, y, a, b))
         == x * (x * a + y * b + z * c) - a * (x * x + y * y + z * z)
  {
  }

  /** Two rays have the inner product their azimuths give, and turn around the boresight with the azimuth: seen along
      the boresight, from the first towards the second by the difference. */
  lemma ConeRaysApart(boresight: Vec, sqrt: real -> real, ca: real, sa: real, c: real, s: real, c': real, s': real)
    requires IsSqrt(sqrt) && Dot(boresight, boresight) != 0.0
    ensures var f := ConeBasis(boresight, sqrt);
      var p, q := ConeRay(f, ca, sa, c, s), ConeRay(f, ca, sa, c', s');
      && Dot(p, q) == Mix(ca, sa * c, sa * s, ca, sa * c', sa * s')
      && Dot(Cross(p, q), f.v) == Minor(sa * c, sa * s, sa * c', sa * s')
  {
    ConeAxes(boresight, sqrt);
    var f := ConeBasis(boresight, sqrt);
    CombinationsDot(Vec(ca, sa * c, sa * s), Vec(ca, sa * c', sa * s'), Mat(f.v, f.n, f.b));
    DotIsMix(Vec(ca, sa * c, sa * s), Vec(ca, sa * c', sa * s'));
    CombinationsTurn(Vec(ca, sa * c, sa * s), Vec(ca, sa * c', sa * s'), f.v, f.n);
    assert f.b == Cross(f.v, f.n);
    hide Dot, Cross, Mix, Minor, Combine, ConeBasis, IsRotation;
  }

  lemma DotIsMix(k: Vec, l: Vec)
    ensures Dot(k, l) == Mix(k.x, k.y, k.z, l.x, l.y, l.z)
  {
  }

  lemma CombinationsTurn(k: Vec, l: Vec, v: Vec, n: Vec)
    requires IsRotation(Mat(v, n, Cross(v, n)))
    ensures var b := Cross(v, n);
      Dot(Cross(Combine(k, v, n, b), Combine(l, v, n, b)), v) == Minor(k.y, k.z, l.y, l.z)
  {
    var b := Cross(v, n);
    var p, q := Combine(k, v, n, b), Combine(l, v, n, b);
    CrossTwice(v, n);
    CrossCombine(v, n, b, k);
    TripleProduct(v, p, q);
    TripleProduct(p, q, v);
    CombineInBasis(l, Mat(v, n, b));
    DotSymmetric(q, n);
    DotSymmetric(q, b);
    MixedDot(k.y, b, k.z, Scale(-1.0, n), q);
    NegatedDot(n, q);
    hide Dot, Cross, Combine, IsRotation;
    MinorIs(k.y, k.z, l.y, l.z);
  }

  lemma MinorIs(a: real, b: real, c: real, d: real)
    ensures Minor(a, b, c, d) == a * d + b * (-c)
  {
  }

  lemma MixedDot(a: real, u: Vec, b: real, v: Vec, q: Vec)
    ensures Dot(Add(Scale(a, u), Scale(b, v)), q) == a * Dot(u, q) + b * Dot(v, q)
  {
  }

  lemma NegatedDot(u: Vec, q: Vec)
    ensures Dot(Scale(-1.0, u), q) == -Dot(u, q)
  {
  }

  /** Azimuth 0 is across the x axis, or across the y axis for a boresight within about 26 degrees of the x axis. */
  lemma ConeStart(boresight: Vec, sqrt: real -> real)
    requires IsSqrt(sqrt) && Dot(boresight, boresight) != 0.0
    ensures var f := ConeBasis(boresight, sqrt);
      var arb := if Abs(f.v.x) < 0.9 then Vec(1.0, 0.0, 0.0) else Vec(0.0, 1.0, 0.0);
      f.v == Over(boresight, Length(boresight, sqrt)) && Dot(f.n, arb) == 0.0 && Dot(f.n, Cross(f.v, arb)) > 0.0
  {
    UnitOver(boresight, sqrt);
    var b := Over(boresight, Length(boresight, sqrt));
    var arb := if -0.9 < b.x < 0.9 then Vec(1.0, 0.0, 0.0) else Vec(0.0, 1.0, 0.0);
    NotParallel(b);
    UnitOver(Cross(b, arb), sqrt);
    AlongOver(Cross(b, arb), sqrt);
    CrossIsOrthogonal(b, arb);
    DotSymmetric(arb, Cross(b, arb));
    AcrossOver(Cross(b, arb), Length(Cross(b, arb), sqrt), arb);
  }

  lemma Substitute(a: real, b: real, n: real, c: real)
    requires a == b && a * n == c
    ensures b * n == c
  {
  }

  lemma UnitCoefficients(ca: real, sa: real, c: real, s: real)
    requires ca * ca + sa * sa == 1.0 && c * c + s * s == 1.0
    ensures Unit(Vec(ca, sa * c, sa * s))
  {
    UnitTriple(ca, sa, c, s, sa * c, sa * s);
  }

  lemma UnitTriple(ca: real, sa: real, c: real, s: real, p: real, q: real)
    requires ca * ca + sa * sa == 1.0 && c * c + s * s == 1.0 && p == sa * c && q == sa * s
    ensures Unit(Vec(ca, p, q))
  {
    assert p * p + q * q == sa * sa by {
      calc {
        p * p + q * q;
        sa * c * (sa * c) + sa * s * (sa * s);
        sa * sa * (c * c + s * s);
      }
    }
    assert Dot(Vec(ca, p, q), Vec(ca, p, q)) == ca * ca + (p * p + q * q);
  }
}
