/** Matrices, quaternions and the vectors they turn, over the reals: `_mat_to_quat` of
    altavista/bodies.py and `_quat_apply` of altavista/scenario.py. */
module Vectors {

  datatype Vec = Vec(x: real, y: real, z: real)

  function Dot(a: Vec, b: Vec): real { a.x * b.x + a.y * b.y + a.z * b.z }

  function Minor(a: real, b: real, c: real, d: real): real { a * d - b * c }

  function Cross(a: Vec, b: Vec): Vec {
    Vec(Minor(a.y, a.z, b.y, b.z), Minor(a.z, a.x, b.z, b.x), Minor(a.x, a.y, b.x, b.y))
  }

  function Add(a: Vec, b: Vec): Vec { Vec(a.x + b.x, a.y + b.y, a.z + b.z) }

  function Scale(k: real, a: Vec): Vec { Vec(k * a.x, k * a.y, k * a.z) }

  predicate Unit(a: Vec) { Dot(a, a) == 1.0 }

  /** math.sqrt over the reals. */
  ghost predicate IsSqrt(sqrt: real -> real) {
    forall x: real :: x >= 0.0 ==> sqrt(x) >= 0.0 && sqrt(x) * sqrt(x) == x
  }

  lemma ZeroProduct(a: real, b: real)
    requires a * b == 0.0
    ensures a == 0.0 || b == 0.0
  {
  }

  lemma Cancel(k: real, a: real, b: real)
    requires k != 0.0 && k * a == k * b
    ensures a == b
  {
    assert k * (a - b) == 0.0;
    ZeroProduct(k, a - b);
  }

  lemma ZeroSquare(r: real)
    requires r * r == 0.0
    ensures r == 0.0
  {
    ZeroProduct(r, r);
  }

  /** A non-negative number is determined by its square. */
  lemma SameSquare(r: real, s: real)
    requires r >= 0.0 && s >= 0.0 && r * r == s * s
    ensures r == s
  {
    assert (r - s) * (r + s) == 0.0;
    ZeroProduct(r - s, r + s);
  }

  /** |a x b|^2 = |a|^2 |b|^2 - (a . b)^2 */
  lemma Lagrange(a: Vec, b: Vec)
    ensures Dot(Cross(a, b), Cross(a, b)) == Dot(a, a) * Dot(b, b) - Dot(a, b) * Dot(a, b)
  {
  }

  lemma CrossIsOrthogonal(a: Vec, b: Vec)
    ensures Dot(a, Cross(a, b)) == 0.0 && Dot(b, Cross(a, b)) == 0.0
  {
  }

  /** Two unit vectors whose dot product is 1 are the same. */
  lemma SameUnit(a: Vec, b: Vec)
    requires Unit(a) && Unit(b) && Dot(a, b) == 1.0
    ensures a == b
  {
    var d := Vec(a.x - b.x, a.y - b.y, a.z - b.z);
    assert Dot(d, d) == Dot(a, a) - 2.0 * Dot(a, b) + Dot(b, b);
    SquaresVanish(d);
  }

  lemma SquaresVanish(d: Vec)
    requires Dot(d, d) == 0.0
    ensures d == Vec(0.0, 0.0, 0.0)
  {
    assert d.x * d.x >= 0.0 && d.y * d.y >= 0.0 && d.z * d.z >= 0.0;
    ZeroSquare(d.x);
    ZeroSquare(d.y);
    ZeroSquare(d.z);
  }

  lemma TripleProduct(a: Vec, b: Vec, c: Vec)
    ensures Dot(Cross(a, b), c) == Dot(Cross(b, c), a)
  {
  }
}

module Rotation {
  import opened Vectors

  /** A 3x3 matrix by rows. */
  datatype Mat = Mat(r0: Vec, r1: Vec, r2: Vec)

  function Times(m: Mat, v: Vec): Vec { Vec(Dot(m.r0, v), Dot(m.r1, v), Dot(m.r2, v)) }

  function Col(m: Mat, i: nat): Vec
    requires i < 3
  {
    if i == 0 then Vec(m.r0.x, m.r1.x, m.r2.x)
    else if i == 1 then Vec(m.r0.y, m.r1.y, m.r2.y)
    else Vec(m.r0.z, m.r1.z, m.r2.z)
  }

  /** Orthonormal rows and determinant +1. */
  ghost predicate IsRotation(m: Mat) {
    && Unit(m.r0) && Unit(m.r1) && Unit(m.r2)
    && Dot(m.r0, m.r1) == 0.0 && Dot(m.r0, m.r2) == 0.0 && Dot(m.r1, m.r2) == 0.0
    && Dot(Cross(m.r0, m.r1), m.r2) == 1.0
  }

  /** [x, y, z, w], scalar last. */
  datatype Quat = Quat(x: real, y: real, z: real, w: real)

  function Norm2(q: Quat): real { q.x * q.x + q.y * q.y + q.z * q.z + q.w * q.w }

  // ---------------------------------------------------------------- the code

  /** `_mat_to_quat` up to the final normalisation; `sqrt` is math.sqrt. */
  function Raw(m: Mat, sqrt: real -> real): Quat
    requires IsSqrt(sqrt)
  {
    var tr := m.r0.x + m.r1.y + m.r2.z;
    PivotIsLarge(m);
    if tr > 0.0 then
      var s := sqrt(tr + 1.0) * 2.0;
      assert s != 0.0;
      Quat((m.r2.y - m.r1.z) / s, (m.r0.z - m.r2.x) / s, (m.r1.x - m.r0.y) / s, 0.25 * s)
    else if m.r0.x > m.r1.y && m.r0.x > m.r2.z then
      var s := sqrt(1.0 + m.r0.x - m.r1.y - m.r2.z) * 2.0;
      assert s != 0.0;
      Quat(0.25 * s, (m.r0.y + m.r1.x) / s, (m.r0.z + m.r2.x) / s, (m.r2.y - m.r1.z) / s)
    else if m.r1.y > m.r2.z then
      var s := sqrt(1.0 + m.r1.y - m.r0.x - m.r2.z) * 2.0;
      assert s != 0.0;
      Quat((m.r0.y + m.r1.x) / s, 0.25 * s, (m.r1.z + m.r2.y) / s, (m.r0.z - m.r2.x) / s)
    else
      var s := sqrt(1.0 + m.r2.z - m.r0.x - m.r1.y) * 2.0;
      assert s != 0.0;
      Quat((m.r0.z + m.r2.x) / s, (m.r1.z + m.r2.y) / s, 0.25 * s, (m.r1.x - m.r0.y) / s)
  }

  /** The four candidates for 4 q_i^2 sum to 4; the branches never take one below 1. */
  lemma PivotIsLarge(m: Mat)
    ensures var tr := m.r0.x + m.r1.y + m.r2.z;
      if tr > 0.0 then tr + 1.0 > 1.0
      else if m.r0.x > m.r1.y && m.r0.x > m.r2.z then 1.0 + m.r0.x - m.r1.y - m.r2.z >= 1.0
      else if m.r1.y > m.r2.z then 1.0 + m.r1.y - m.r0.x - m.r2.z >= 1.0
      else 1.0 + m.r2.z - m.r0.x - m.r1.y >= 1.0
  {
  }

  /** `_quat_apply`. */
  function Apply(q: Quat, v: Vec): Vec {
    var qv := Vec(q.x, q.y, q.z);
    var t := Scale(2.0, Cross(qv, v));
    Add(Add(v, Scale(q.w, t)), Cross(qv, t))
  }

  // ---------------------------------------------------------------- the theory

  /** The ten products of four numbers, times 4. */
  ghost predicate Products(p: real, d: real, e: real, f: real, pp: real, pd: real, pe: real, pf: real,
                           dd: real, ee: real, ff: real, de: real, df: real, ef: real) {
    && 4.0 * (p * p) == pp && 4.0 * (p * d) == pd && 4.0 * (p * e) == pe && 4.0 * (p * f) == pf
    && 4.0 * (d * d) == dd && 4.0 * (e * e) == ee && 4.0 * (f * f) == ff
    && 4.0 * (d * e) == de && 4.0 * (d * f) == df && 4.0 * (e * f) == ef
  }

  /** What a matrix says about the products of its quaternion's components. */
  function WW(m: Mat): real { 1.0 + m.r0.x + m.r1.y + m.r2.z }
  function XX(m: Mat): real { 1.0 + m.r0.x - m.r1.y - m.r2.z }
  function YY(m: Mat): real { 1.0 + m.r1.y - m.r0.x - m.r2.z }
  function ZZ(m: Mat): real { 1.0 + m.r2.z - m.r0.x - m.r1.y }
  function XY(m: Mat): real { m.r0.y + m.r1.x }
  function XZ(m: Mat): real { m.r0.z + m.r2.x }
  function YZ(m: Mat): real { m.r1.z + m.r2.y }
  function WX(m: Mat): real { m.r2.y - m.r1.z }
  function WY(m: Mat): real { m.r0.z - m.r2.x }
  function WZ(m: Mat): real { m.r1.x - m.r0.y }

  ghost predicate Represents(q: Quat, m: Mat) {
    Products(q.w, q.x, q.y, q.z, WW(m), WX(m), WY(m), WZ(m), XX(m), YY(m), ZZ(m), XY(m), XZ(m), YZ(m))
  }

  /** A rotation equals its own cofactor matrix. */
  lemma RowsAreCrossProducts(m: Mat)
    requires IsRotation(m)
    ensures Cross(m.r0, m.r1) == m.r2 && Cross(m.r1, m.r2) == m.r0 && Cross(m.r2, m.r0) == m.r1
  {
    CrossIs(m.r0, m.r1, m.r2);
    TripleProduct(m.r0, m.r1, m.r2);
    CrossIs(m.r1, m.r2, m.r0);
    TripleProduct(m.r1, m.r2, m.r0);
    CrossIs(m.r2, m.r0, m.r1);
  }

  lemma CrossIs(a: Vec, b: Vec, c: Vec)
    requires Unit(a) && Unit(b) && Unit(c) && Dot(a, b) == 0.0 && Dot(Cross(a, b), c) == 1.0
    ensures Cross(a, b) == c
  {
    Lagrange(a, b);
    SameUnit(Cross(a, b), c);
  }

  /** Orthonormal columns. */
  lemma ColumnsOrthonormal(m: Mat)
    requires IsRotation(m)
    ensures Unit(Col(m, 0)) && Unit(Col(m, 1)) && Unit(Col(m, 2))
    ensures Dot(Col(m, 0), Col(m, 1)) == 0.0 && Dot(Col(m, 0), Col(m, 2)) == 0.0 && Dot(Col(m, 1), Col(m, 2)) == 0.0
  {
    var a, b, c := Col(m, 0), Col(m, 1), Col(m, 2);
    RowsAreCrossProducts(m);
    assert a == Cross(b, c) && b == Cross(c, a) && c == Cross(a, b);
    Transposed(m);
    TripleProduct(a, b, c);
    TripleProduct(b, c, a);
    CrossIsOrthogonal(b, c);
    CrossIsOrthogonal(c, a);
    assert Dot(a, b) == Dot(b, Cross(b, c)) && Dot(a, c) == Dot(c, Cross(b, c)) && Dot(b, c) == Dot(c, Cross(c, a));
  }

  lemma Transposed(m: Mat)
    ensures Dot(Cross(Col(m, 0), Col(m, 1)), Col(m, 2)) == Dot(Cross(m.r0, m.r1), m.r2)
  {
  }

  // ---------------------------------------------------------------- the pivot determines the rest

  /** The products k, a, b, c with a pivot fix the other six: k times 4 q_i q_j is 4 q_p q_i times 4 q_p q_j. */
  ghost predicate RankOne(k: real, a: real, b: real, c: real, aa: real, bb: real, cc: real, ab: real, ac: real,
                          bc: real) {
    && k * aa == a * a && k * bb == b * b && k * cc == c * c
    && k * ab == a * b && k * ac == a * c && k * bc == b * c
  }

  lemma PivotW(m: Mat)
    requires IsRotation(m)
    ensures RankOne(WW(m), WX(m), WY(m), WZ(m), XX(m), YY(m), ZZ(m), XY(m), XZ(m), YZ(m))
  {
    RowsAreCrossProducts(m);
    ColumnsOrthonormal(m);
  }

  lemma PivotX(m: Mat)
    requires IsRotation(m)
    ensures RankOne(XX(m), XY(m), XZ(m), WX(m), YY(m), ZZ(m), WW(m), YZ(m), WY(m), WZ(m))
  {
    RowsAreCrossProducts(m);
    ColumnsOrthonormal(m);
  }

  lemma PivotY(m: Mat)
    requires IsRotation(m)
    ensures RankOne(YY(m), XY(m), YZ(m), WY(m), XX(m), ZZ(m), WW(m), XZ(m), WX(m), WZ(m))
  {
    RowsAreCrossProducts(m);
    ColumnsOrthonormal(m);
  }

  lemma PivotZ(m: Mat)
    requires IsRotation(m)
    ensures RankOne(ZZ(m), XZ(m), YZ(m), WZ(m), XX(m), YY(m), WW(m), XY(m), WX(m), WY(m))
  {
    RowsAreCrossProducts(m);
    ColumnsOrthonormal(m);
  }

  /** With r = sqrt(k) and s = 2 r, the pivot is s / 4 and the others are a / s. */
  lemma Divided(k: real, r: real, a: real, b: real, ab: real)
    requires k >= 1.0 && r >= 0.0 && r * r == k && k * ab == a * b
    ensures r > 0.0
    ensures var s := r * 2.0;
      4.0 * ((a / s) * (b / s)) == ab && 4.0 * ((0.25 * s) * (a / s)) == a && 4.0 * ((0.25 * s) * (0.25 * s)) == k
  {
    var s := r * 2.0;
    var p, q := a / s, b / s;
    assert p * s == a && q * s == b;
    assert (4.0 * p * q) * k == (p * s) * (q * s);
    assert (4.0 * p * q - ab) * k == 0.0;
    ZeroProduct(4.0 * p * q - ab, k);
  }

  /** A pivot k with r = sqrt(k) >= 1 fixes all ten. */
  lemma ByPivot(k: real, r: real, a: real, b: real, c: real, aa: real, bb: real, cc: real, ab: real, ac: real, bc: real)
    requires k >= 1.0 && r >= 0.0 && r * r == k && RankOne(k, a, b, c, aa, bb, cc, ab, ac, bc)
    ensures r * 2.0 > 0.0
    ensures var s := r * 2.0; Products(0.25 * s, a / s, b / s, c / s, k, a, b, c, aa, bb, cc, ab, ac, bc)
  {
    Divided(k, r, a, a, aa);
    Divided(k, r, b, b, bb);
    Divided(k, r, c, c, cc);
    Divided(k, r, a, b, ab);
    Divided(k, r, a, c, ac);
    Divided(k, r, b, c, bc);
  }

  lemma ReorderX(x: real, y: real, z: real, w: real, xx: real, xy: real, xz: real, xw: real,
                 yy: real, zz: real, ww: real, yz: real, yw: real, zw: real)
    requires Products(x, y, z, w, xx, xy, xz, xw, yy, zz, ww, yz, yw, zw)
    ensures Products(w, x, y, z, ww, xw, yw, zw, xx, yy, zz, xy, xz, yz)
  {
  }

  lemma ReorderY(y: real, x: real, z: real, w: real, yy: real, xy: real, yz: real, yw: real,
                 xx: real, zz: real, ww: real, xz: real, xw: real, zw: real)
    requires Products(y, x, z, w, yy, xy, yz, yw, xx, zz, ww, xz, xw, zw)
    ensures Products(w, x, y, z, ww, xw, yw, zw, xx, yy, zz, xy, xz, yz)
  {
  }

  lemma ReorderZ(z: real, x: real, y: real, w: real, zz: real, xz: real, yz: real, zw: real,
                 xx: real, yy: real, ww: real, xy: real, xw: real, yw: real)
    requires Products(z, x, y, w, zz, xz, yz, zw, xx, yy, ww, xy, xw, yw)
    ensures Products(w, x, y, z, ww, xw, yw, zw, xx, yy, zz, xy, xz, yz)
  {
  }

  lemma RepresentsW(m: Mat, sqrt: real -> real)
    requires IsSqrt(sqrt) && RankOne(WW(m), WX(m), WY(m), WZ(m), XX(m), YY(m), ZZ(m), XY(m), XZ(m), YZ(m))
    requires m.r0.x + m.r1.y + m.r2.z > 0.0
    ensures Represents(Raw(m, sqrt), m)
  {
    ByPivot(WW(m), sqrt(WW(m)), WX(m), WY(m), WZ(m), XX(m), YY(m), ZZ(m), XY(m), XZ(m), YZ(m));
  }

  lemma ProductsX(m: Mat, sqrt: real -> real)
    requires IsSqrt(sqrt) && RankOne(XX(m), XY(m), XZ(m), WX(m), YY(m), ZZ(m), WW(m), YZ(m), WY(m), WZ(m))
    requires m.r0.x + m.r1.y + m.r2.z <= 0.0 && m.r0.x > m.r1.y && m.r0.x > m.r2.z
    ensures var q := Raw(m, sqrt);
      Products(q.x, q.y, q.z, q.w, XX(m), XY(m), XZ(m), WX(m), YY(m), ZZ(m), WW(m), YZ(m), WY(m), WZ(m))
  {
    ByPivot(XX(m), sqrt(XX(m)), XY(m), XZ(m), WX(m), YY(m), ZZ(m), WW(m), YZ(m), WY(m), WZ(m));
  }

  lemma RepresentsX(m: Mat, sqrt: real -> real)
    requires IsSqrt(sqrt) && RankOne(XX(m), XY(m), XZ(m), WX(m), YY(m), ZZ(m), WW(m), YZ(m), WY(m), WZ(m))
    requires m.r0.x + m.r1.y + m.r2.z <= 0.0 && m.r0.x > m.r1.y && m.r0.x > m.r2.z
    ensures Represents(Raw(m, sqrt), m)
  {
    ProductsX(m, sqrt);
    var q := Raw(m, sqrt);
    ReorderX(q.x, q.y, q.z, q.w, XX(m), XY(m), XZ(m), WX(m), YY(m), ZZ(m), WW(m), YZ(m), WY(m), WZ(m));
  }

  lemma ProductsY(m: Mat, sqrt: real -> real)
    requires IsSqrt(sqrt) && RankOne(YY(m), XY(m), YZ(m), WY(m), XX(m), ZZ(m), WW(m), XZ(m), WX(m), WZ(m))
    requires m.r0.x + m.r1.y + m.r2.z <= 0.0 && !(m.r0.x > m.r1.y && m.r0.x > m.r2.z) && m.r1.y > m.r2.z
    ensures var q := Raw(m, sqrt);
      Products(q.y, q.x, q.z, q.w, YY(m), XY(m), YZ(m), WY(m), XX(m), ZZ(m), WW(m), XZ(m), WX(m), WZ(m))
  {
    ByPivot(YY(m), sqrt(YY(m)), XY(m), YZ(m), WY(m), XX(m), ZZ(m), WW(m), XZ(m), WX(m), WZ(m));
  }

  lemma RepresentsY(m: Mat, sqrt: real -> real)
    requires IsSqrt(sqrt) && RankOne(YY(m), XY(m), YZ(m), WY(m), XX(m), ZZ(m), WW(m), XZ(m), WX(m), WZ(m))
    requires m.r0.x + m.r1.y + m.r2.z <= 0.0 && !(m.r0.x > m.r1.y && m.r0.x > m.r2.z) && m.r1.y > m.r2.z
    ensures Represents(Raw(m, sqrt), m)
  {
    ProductsY(m, sqrt);
    var q := Raw(m, sqrt);
    ReorderY(q.y, q.x, q.z, q.w, YY(m), XY(m), YZ(m), WY(m), XX(m), ZZ(m), WW(m), XZ(m), WX(m), WZ(m));
  }

  lemma ProductsZ(m: Mat, sqrt: real -> real)
    requires IsSqrt(sqrt) && RankOne(ZZ(m), XZ(m), YZ(m), WZ(m), XX(m), YY(m), WW(m), XY(m), WX(m), WY(m))
    requires m.r0.x + m.r1.y + m.r2.z <= 0.0 && !(m.r0.x > m.r1.y && m.r0.x > m.r2.z) && m.r1.y <= m.r2.z
    ensures var q := Raw(m, sqrt);
      Products(q.z, q.x, q.y, q.w, ZZ(m), XZ(m), YZ(m), WZ(m), XX(m), YY(m), WW(m), XY(m), WX(m), WY(m))
  {
    ByPivot(ZZ(m), sqrt(ZZ(m)), XZ(m), YZ(m), WZ(m), XX(m), YY(m), WW(m), XY(m), WX(m), WY(m));
  }

  lemma RepresentsZ(m: Mat, sqrt: real -> real)
    requires IsSqrt(sqrt) && RankOne(ZZ(m), XZ(m), YZ(m), WZ(m), XX(m), YY(m), WW(m), XY(m), WX(m), WY(m))
    requires m.r0.x + m.r1.y + m.r2.z <= 0.0 && !(m.r0.x > m.r1.y && m.r0.x > m.r2.z) && m.r1.y <= m.r2.z
    ensures Represents(Raw(m, sqrt), m)
  {
    ProductsZ(m, sqrt);
    var q := Raw(m, sqrt);
    ReorderZ(q.z, q.x, q.y, q.w, ZZ(m), XZ(m), YZ(m), WZ(m), XX(m), YY(m), WW(m), XY(m), WX(m), WY(m));
  }

  lemma RawRepresents(m: Mat, sqrt: real -> real)
    requires IsRotation(m) && IsSqrt(sqrt)
    ensures Represents(Raw(m, sqrt), m)
  {
    PivotW(m);
    PivotX(m);
    PivotY(m);
    PivotZ(m);
    var tr := m.r0.x + m.r1.y + m.r2.z;
    if tr > 0.0 {
      RepresentsW(m, sqrt);
    } else if m.r0.x > m.r1.y && m.r0.x > m.r2.z {
      RepresentsX(m, sqrt);
    } else if m.r1.y > m.r2.z {
      RepresentsY(m, sqrt);
    } else {
      RepresentsZ(m, sqrt);
    }
  }

  /** `_mat_to_quat`: divided by its own norm, which is 1. */
  function MatToQuat(m: Mat, sqrt: real -> real): Quat
    requires IsRotation(m) && IsSqrt(sqrt)
  {
    var q := Raw(m, sqrt);
    var n := sqrt(Norm2(q));
    NormIsOne(m, sqrt);
    Quat(q.x / n, q.y / n, q.z / n, q.w / n)
  }

  lemma QuarterSum(x: real, y: real, z: real, w: real, xx: real, yy: real, zz: real, ww: real)
    requires 4.0 * x * x == xx && 4.0 * y * y == yy && 4.0 * z * z == zz && 4.0 * w * w == ww
    requires xx + yy + zz + ww == 4.0
    ensures x * x + y * y + z * z + w * w == 1.0
  {
  }

  lemma RepresentsUnit(q: Quat, m: Mat)
    requires Represents(q, m)
    ensures Norm2(q) == 1.0
  {
    hide XY, XZ, YZ, WX, WY, WZ;
    QuarterSum(q.x, q.y, q.z, q.w, XX(m), YY(m), ZZ(m), WW(m));
  }

  lemma NormIsOne(m: Mat, sqrt: real -> real)
    requires IsRotation(m) && IsSqrt(sqrt)
    ensures Norm2(Raw(m, sqrt)) == 1.0 && sqrt(Norm2(Raw(m, sqrt))) == 1.0
  {
    RawRepresents(m, sqrt);
    RepresentsUnit(Raw(m, sqrt), m);
    SameSquare(sqrt(1.0), 1.0);
  }

  /** The matrix of a quaternion. */
  function MatrixOf(q: Quat): Mat {
    Mat(Vec(1.0 - 2.0 * (q.y * q.y + q.z * q.z), 2.0 * (q.x * q.y - q.w * q.z), 2.0 * (q.x * q.z + q.w * q.y)),
        Vec(2.0 * (q.x * q.y + q.w * q.z), 1.0 - 2.0 * (q.x * q.x + q.z * q.z), 2.0 * (q.y * q.z - q.w * q.x)),
        Vec(2.0 * (q.x * q.z - q.w * q.y), 2.0 * (q.y * q.z + q.w * q.x), 1.0 - 2.0 * (q.x * q.x + q.y * q.y)))
  }

  lemma RowOf0(q: Quat)
    ensures MatrixOf(q).r0
      == Vec(1.0 - 2.0 * (q.y * q.y + q.z * q.z), 2.0 * (q.x * q.y - q.w * q.z), 2.0 * (q.x * q.z + q.w * q.y))
  {
  }

  lemma RowOf1(q: Quat)
    ensures MatrixOf(q).r1
      == Vec(2.0 * (q.x * q.y + q.w * q.z), 1.0 - 2.0 * (q.x * q.x + q.z * q.z), 2.0 * (q.y * q.z - q.w * q.x))
  {
  }

  lemma RowOf2(q: Quat)
    ensures MatrixOf(q).r2
      == Vec(2.0 * (q.x * q.z - q.w * q.y), 2.0 * (q.y * q.z + q.w * q.x), 1.0 - 2.0 * (q.x * q.x + q.y * q.y))
  {
  }

  lemma Times1(k: real, a: real, b: real)
    requires a == b
    ensures k * a == k * b
  {
  }

  /** One component of v + w t + q x t with t = 2 q x v, against a row (r0, r1, r2) of the matrix. */
  lemma ApplyEntry(x: real, y: real, z: real, w: real, a: real, b: real, c: real, tx: real, ty: real, tz: real,
                   r0: real, r1: real, r2: real)
    requires tx == 2.0 * (y * c - z * b) && ty == 2.0 * (z * a - x * c) && tz == 2.0 * (x * b - y * a)
    requires r0 == 1.0 - 2.0 * (y * y + z * z) && r1 == 2.0 * (x * y - w * z) && r2 == 2.0 * (x * z + w * y)
    ensures a + w * tx + (y * tz - z * ty) == r0 * a + r1 * b + r2 * c
  {
    Times1(w, tx, 2.0 * (y * c - z * b));
    Times1(y, tz, 2.0 * (x * b - y * a));
    Times1(z, ty, 2.0 * (z * a - x * c));
    Times1(a, r0, 1.0 - 2.0 * (y * y + z * z));
    Times1(b, r1, 2.0 * (x * y - w * z));
    Times1(c, r2, 2.0 * (x * z + w * y));
  }

  lemma ApplyIs(q: Quat, v: Vec, t: Vec)
    requires t == Scale(2.0, Cross(Vec(q.x, q.y, q.z), v))
    ensures Apply(q, v) == Vec(v.x + q.w * t.x + (q.y * t.z - q.z * t.y),
                               v.y + q.w * t.y + (q.z * t.x - q.x * t.z),
                               v.z + q.w * t.z + (q.x * t.y - q.y * t.x))
  {
    var qv := Vec(q.x, q.y, q.z);
    CrossOf(qv, t, q.x, q.y, q.z);
    assert Apply(q, v) == Add(Add(v, Scale(q.w, t)), Cross(qv, t));
  }

  lemma CrossOf(a: Vec, b: Vec, x: real, y: real, z: real)
    requires a.x == x && a.y == y && a.z == z
    ensures Cross(a, b) == Vec(y * b.z - z * b.y, z * b.x - x * b.z, x * b.y - y * b.x)
  {
    assert a == Vec(x, y, z);
  }

  lemma TwiceCrossIs(q: Quat, v: Vec)
    ensures Scale(2.0, Cross(Vec(q.x, q.y, q.z), v))
         == Vec(2.0 * (q.y * v.z - q.z * v.y), 2.0 * (q.z * v.x - q.x * v.z), 2.0 * (q.x * v.y - q.y * v.x))
  {
  }

  lemma EntryX(q: Quat, v: Vec, t: Vec, r: Vec)
    requires t == Vec(2.0 * (q.y * v.z - q.z * v.y), 2.0 * (q.z * v.x - q.x * v.z), 2.0 * (q.x * v.y - q.y * v.x))
    requires r == Vec(1.0 - 2.0 * (q.y * q.y + q.z * q.z), 2.0 * (q.x * q.y - q.w * q.z), 2.0 * (q.x * q.z + q.w * q.y))
    ensures v.x + q.w * t.x + (q.y * t.z - q.z * t.y) == Dot(r, v)
  {
    ApplyEntry(q.x, q.y, q.z, q.w, v.x, v.y, v.z, t.x, t.y, t.z, r.x, r.y, r.z);
  }

  lemma ApplyX(q: Quat, v: Vec)
    ensures Apply(q, v).x == Times(MatrixOf(q), v).x
  {
    var t := Scale(2.0, Cross(Vec(q.x, q.y, q.z), v));
    ApplyIs(q, v, t);
    TwiceCrossIs(q, v);
    RowOf0(q);
    EntryX(q, v, t, MatrixOf(q).r0);
  }

  lemma EntryY(q: Quat, v: Vec, t: Vec, r: Vec)
    requires t == Vec(2.0 * (q.y * v.z - q.z * v.y), 2.0 * (q.z * v.x - q.x * v.z), 2.0 * (q.x * v.y - q.y * v.x))
    requires r == Vec(2.0 * (q.x * q.y + q.w * q.z), 1.0 - 2.0 * (q.x * q.x + q.z * q.z), 2.0 * (q.y * q.z - q.w * q.x))
    ensures v.y + q.w * t.y + (q.z * t.x - q.x * t.z) == Dot(r, v)
  {
    ApplyEntry(q.y, q.z, q.x, q.w, v.y, v.z, v.x, t.y, t.z, t.x, r.y, r.z, r.x);
  }

  lemma ApplyY(q: Quat, v: Vec)
    ensures Apply(q, v).y == Times(MatrixOf(q), v).y
  {
    var t := Scale(2.0, Cross(Vec(q.x, q.y, q.z), v));
    ApplyIs(q, v, t);
    TwiceCrossIs(q, v);
    RowOf1(q);
    EntryY(q, v, t, MatrixOf(q).r1);
  }

  lemma EntryZ(q: Quat, v: Vec, t: Vec, r: Vec)
    requires t == Vec(2.0 * (q.y * v.z - q.z * v.y), 2.0 * (q.z * v.x - q.x * v.z), 2.0 * (q.x * v.y - q.y * v.x))
    requires r == Vec(2.0 * (q.x * q.z - q.w * q.y), 2.0 * (q.y * q.z + q.w * q.x), 1.0 - 2.0 * (q.x * q.x + q.y * q.y))
    ensures v.z + q.w * t.z + (q.x * t.y - q.y * t.x) == Dot(r, v)
  {
    ApplyEntry(q.z, q.x, q.y, q.w, v.z, v.x, v.y, t.z, t.x, t.y, r.z, r.x, r.y);
  }

  lemma ApplyZ(q: Quat, v: Vec)
    ensures Apply(q, v).z == Times(MatrixOf(q), v).z
  {
    var t := Scale(2.0, Cross(Vec(q.x, q.y, q.z), v));
    ApplyIs(q, v, t);
    TwiceCrossIs(q, v);
    RowOf2(q);
    EntryZ(q, v, t, MatrixOf(q).r2);
  }

  lemma ApplyIsMatrix(q: Quat, v: Vec)
    ensures Apply(q, v) == Times(MatrixOf(q), v)
  {
    ApplyX(q, v);
    ApplyY(q, v);
    ApplyZ(q, v);
  }

  lemma Diagonal(q: Quat, m: Mat)
    requires 4.0 * (q.x * q.x) == XX(m) && 4.0 * (q.y * q.y) == YY(m) && 4.0 * (q.z * q.z) == ZZ(m)
    ensures MatrixOf(q).r0.x == m.r0.x && MatrixOf(q).r1.y == m.r1.y && MatrixOf(q).r2.z == m.r2.z
  {
    hide MatrixOf;
    DiagonalOf(q);
  }

  lemma OffDiagonalXY(q: Quat, m: Mat)
    requires 4.0 * (q.x * q.y) == XY(m) && 4.0 * (q.w * q.z) == WZ(m)
    ensures MatrixOf(q).r0.y == m.r0.y && MatrixOf(q).r1.x == m.r1.x
  {
  }

  lemma OffDiagonalXZ(q: Quat, m: Mat)
    requires 4.0 * (q.x * q.z) == XZ(m) && 4.0 * (q.w * q.y) == WY(m)
    ensures MatrixOf(q).r0.z == m.r0.z && MatrixOf(q).r2.x == m.r2.x
  {
  }

  lemma OffDiagonalYZ(q: Quat, m: Mat)
    requires 4.0 * (q.y * q.z) == YZ(m) && 4.0 * (q.w * q.x) == WX(m)
    ensures MatrixOf(q).r1.z == m.r1.z && MatrixOf(q).r2.y == m.r2.y
  {
  }

  lemma RepresentedMatrix(q: Quat, m: Mat)
    requires Represents(q, m)
    ensures MatrixOf(q) == m
  {
    hide MatrixOf, WW, XX, YY, ZZ, XY, XZ, YZ, WX, WY, WZ;
    Diagonal(q, m);
    OffDiagonalXY(q, m);
    OffDiagonalXZ(q, m);
    OffDiagonalYZ(q, m);
    SameEntries(MatrixOf(q), m);
  }

  lemma SameEntries(a: Mat, b: Mat)
    requires a.r0.x == b.r0.x && a.r0.y == b.r0.y && a.r0.z == b.r0.z
    requires a.r1.x == b.r1.x && a.r1.y == b.r1.y && a.r1.z == b.r1.z
    requires a.r2.x == b.r2.x && a.r2.y == b.r2.y && a.r2.z == b.r2.z
    ensures a == b
  {
  }

  /** The quaternion is a unit and turns every vector as the matrix does, in all four branches. */
  lemma QuaternionTurnsLikeTheMatrix(m: Mat, sqrt: real -> real, v: Vec)
    requires IsRotation(m) && IsSqrt(sqrt)
    ensures Norm2(MatToQuat(m, sqrt)) == 1.0
    ensures Apply(MatToQuat(m, sqrt), v) == Times(m, v)
  {
    NormIsOne(m, sqrt);
    RawRepresents(m, sqrt);
    RepresentedMatrix(Raw(m, sqrt), m);
    ApplyIsMatrix(Raw(m, sqrt), v);
  }

  // ---------------------------------------------------------------- and back

  /** The matrix of a unit quaternion is a rotation that has the quaternion's products. */
  lemma UnitRepresents(q: Quat)
    requires Norm2(q) == 1.0
    ensures Represents(q, MatrixOf(q))
  {
    UnitSquares(q);
    UnitMixed(q);
  }

  lemma UnitSquares(q: Quat)
    requires Norm2(q) == 1.0
    ensures var m := MatrixOf(q);
      4.0 * (q.w * q.w) == WW(m) && 4.0 * (q.x * q.x) == XX(m) && 4.0 * (q.y * q.y) == YY(m)
        && 4.0 * (q.z * q.z) == ZZ(m)
  {
    hide MatrixOf;
    DiagonalOf(q);
    var xx, yy, zz, ww := q.x * q.x, q.y * q.y, q.z * q.z, q.w * q.w;
    assert xx + yy + zz + ww == 1.0;
  }

  lemma DiagonalOf(q: Quat)
    ensures var m := MatrixOf(q);
      && m.r0.x == 1.0 - 2.0 * (q.y * q.y) - 2.0 * (q.z * q.z)
      && m.r1.y == 1.0 - 2.0 * (q.x * q.x) - 2.0 * (q.z * q.z)
      && m.r2.z == 1.0 - 2.0 * (q.x * q.x) - 2.0 * (q.y * q.y)
  {
  }

  lemma UnitMixed(q: Quat)
    ensures var m := MatrixOf(q);
      && 4.0 * (q.x * q.y) == XY(m) && 4.0 * (q.x * q.z) == XZ(m) && 4.0 * (q.y * q.z) == YZ(m)
      && 4.0 * (q.w * q.x) == WX(m) && 4.0 * (q.w * q.y) == WY(m) && 4.0 * (q.w * q.z) == WZ(m)
  {
  }

  lemma DotOf(a: Vec, b: Vec, ax: real, ay: real, az: real, bx: real, by': real, bz: real)
    requires a == Vec(ax, ay, az) && b == Vec(bx, by', bz)
    ensures Dot(a, b) == ax * bx + ay * by' + az * bz
  {
  }

  lemma RowNorm(x: real, y: real, z: real, w: real)
    requires x * x + y * y + z * z + w * w == 1.0
    ensures (1.0 - 2.0 * (y * y + z * z)) * (1.0 - 2.0 * (y * y + z * z))
          + 2.0 * (x * y - w * z) * (2.0 * (x * y - w * z)) + 2.0 * (x * z + w * y) * (2.0 * (x * z + w * y)) == 1.0
  {
    var n := x * x + y * y + z * z + w * w;
    assert (x * x + w * w - y * y - z * z) * (x * x + w * w - y * y - z * z)
         + 2.0 * (x * y - w * z) * (2.0 * (x * y - w * z)) + 2.0 * (x * z + w * y) * (2.0 * (x * z + w * y)) == n * n;
  }

  lemma RowDot(x: real, y: real, z: real, w: real)
    requires x * x + y * y + z * z + w * w == 1.0
    ensures (1.0 - 2.0 * (y * y + z * z)) * (2.0 * (x * y + w * z))
      + 2.0 * (x * y - w * z) * (1.0 - 2.0 * (x * x + z * z))
          + 2.0 * (x * z + w * y) * (2.0 * (y * z - w * x)) == 0.0
  {
    assert (x * x + w * w - y * y - z * z) * (2.0 * (x * y + w * z))
      + 2.0 * (x * y - w * z) * (y * y + w * w - x * x - z * z)
         + 2.0 * (x * z + w * y) * (2.0 * (y * z - w * x)) == 0.0;
  }

  lemma RowCross(x: real, y: real, z: real, w: real)
    requires x * x + y * y + z * z + w * w == 1.0
    ensures Minor(2.0 * (x * y - w * z), 2.0 * (x * z + w * y), 1.0 - 2.0 * (x * x + z * z), 2.0 * (y * z - w * x))
         == 2.0 * (x * z - w * y)
    ensures Minor(2.0 * (x * z + w * y), 1.0 - 2.0 * (y * y + z * z), 2.0 * (y * z - w * x), 2.0 * (x * y + w * z))
         == 2.0 * (y * z + w * x)
    ensures Minor(1.0 - 2.0 * (y * y + z * z), 2.0 * (x * y - w * z), 2.0 * (x * y + w * z),
      1.0 - 2.0 * (x * x + z * z))
         == 1.0 - 2.0 * (x * x + y * y)
  {
    var n := x * x + y * y + z * z + w * w;
    assert 2.0 * (x * y - w * z) * (2.0 * (y * z - w * x)) - 2.0 * (x * z + w * y) * (y * y + w * w - x * x - z * z)
        == n * (2.0 * (x * z - w * y));
    assert 2.0 * (x * z + w * y) * (2.0 * (x * y + w * z)) - (x * x + w * w - y * y - z * z) * (2.0 * (y * z - w * x))
        == n * (2.0 * (y * z + w * x));
    assert (x * x + w * w - y * y - z * z) * (y * y + w * w - x * x - z * z)
         - 2.0 * (x * y - w * z) * (2.0 * (x * y + w * z))
        == n * (z * z + w * w - x * x - y * y);
  }

  lemma UnitRow0(r: Vec, x: real, y: real, z: real, w: real)
    requires x * x + y * y + z * z + w * w == 1.0
    requires r == Vec(1.0 - 2.0 * (y * y + z * z), 2.0 * (x * y - w * z), 2.0 * (x * z + w * y))
    ensures Unit(r)
  {
    RowNorm(x, y, z, w);
    DotOf(r, r, 1.0 - 2.0 * (y * y + z * z), 2.0 * (x * y - w * z), 2.0 * (x * z + w * y),
                1.0 - 2.0 * (y * y + z * z), 2.0 * (x * y - w * z), 2.0 * (x * z + w * y));
  }

  lemma UnitRow1(r: Vec, x: real, y: real, z: real, w: real)
    requires x * x + y * y + z * z + w * w == 1.0
    requires r == Vec(2.0 * (x * y + w * z), 1.0 - 2.0 * (x * x + z * z), 2.0 * (y * z - w * x))
    ensures Unit(r)
  {
    RowNorm(y, z, x, w);
    DotOf(r, r, 2.0 * (x * y + w * z), 1.0 - 2.0 * (x * x + z * z), 2.0 * (y * z - w * x),
                2.0 * (x * y + w * z), 1.0 - 2.0 * (x * x + z * z), 2.0 * (y * z - w * x));
  }

  lemma UnitRow2(r: Vec, x: real, y: real, z: real, w: real)
    requires x * x + y * y + z * z + w * w == 1.0
    requires r == Vec(2.0 * (x * z - w * y), 2.0 * (y * z + w * x), 1.0 - 2.0 * (x * x + y * y))
    ensures Unit(r)
  {
    RowNorm(z, x, y, w);
    DotOf(r, r, 2.0 * (x * z - w * y), 2.0 * (y * z + w * x), 1.0 - 2.0 * (x * x + y * y),
                2.0 * (x * z - w * y), 2.0 * (y * z + w * x), 1.0 - 2.0 * (x * x + y * y));
  }

  lemma OrthogonalRows01(r: Vec, s: Vec, x: real, y: real, z: real, w: real)
    requires x * x + y * y + z * z + w * w == 1.0
    requires r == Vec(1.0 - 2.0 * (y * y + z * z), 2.0 * (x * y - w * z), 2.0 * (x * z + w * y))
    requires s == Vec(2.0 * (x * y + w * z), 1.0 - 2.0 * (x * x + z * z), 2.0 * (y * z - w * x))
    ensures Dot(r, s) == 0.0
  {
    RowDot(x, y, z, w);
    assert (1.0 - 2.0 * (y * y + z * z)) * (2.0 * (x * y + w * z))
      + 2.0 * (x * y - w * z) * (1.0 - 2.0 * (x * x + z * z)) + 2.0 * (x * z + w * y) * (2.0 * (y * z - w * x)) == 0.0;
    DotOf(r, s, 1.0 - 2.0 * (y * y + z * z), 2.0 * (x * y - w * z), 2.0 * (x * z + w * y),
                2.0 * (x * y + w * z), 1.0 - 2.0 * (x * x + z * z), 2.0 * (y * z - w * x));
  }

  lemma OrthogonalRows12(r: Vec, s: Vec, x: real, y: real, z: real, w: real)
    requires x * x + y * y + z * z + w * w == 1.0
    requires r == Vec(2.0 * (x * y + w * z), 1.0 - 2.0 * (x * x + z * z), 2.0 * (y * z - w * x))
    requires s == Vec(2.0 * (x * z - w * y), 2.0 * (y * z + w * x), 1.0 - 2.0 * (x * x + y * y))
    ensures Dot(r, s) == 0.0
  {
    RowDot(y, z, x, w);
    assert 2.0 * (x * y + w * z) * (2.0 * (x * z - w * y)) + (1.0 - 2.0 * (x * x + z * z)) * (2.0 * (y * z + w * x))
      + 2.0 * (y * z - w * x) * (1.0 - 2.0 * (x * x + y * y)) == 0.0;
    DotOf(r, s, 2.0 * (x * y + w * z), 1.0 - 2.0 * (x * x + z * z), 2.0 * (y * z - w * x),
                2.0 * (x * z - w * y), 2.0 * (y * z + w * x), 1.0 - 2.0 * (x * x + y * y));
  }

  lemma OrthogonalRows02(r: Vec, s: Vec, x: real, y: real, z: real, w: real)
    requires x * x + y * y + z * z + w * w == 1.0
    requires r == Vec(1.0 - 2.0 * (y * y + z * z), 2.0 * (x * y - w * z), 2.0 * (x * z + w * y))
    requires s == Vec(2.0 * (x * z - w * y), 2.0 * (y * z + w * x), 1.0 - 2.0 * (x * x + y * y))
    ensures Dot(r, s) == 0.0
  {
    RowDot(z, x, y, w);
    assert (1.0 - 2.0 * (y * y + z * z)) * (2.0 * (x * z - w * y)) + 2.0 * (x * y - w * z) * (2.0 * (y * z + w * x))
      + 2.0 * (x * z + w * y) * (1.0 - 2.0 * (x * x + y * y)) == 0.0;
    DotOf(r, s, 1.0 - 2.0 * (y * y + z * z), 2.0 * (x * y - w * z), 2.0 * (x * z + w * y),
                2.0 * (x * z - w * y), 2.0 * (y * z + w * x), 1.0 - 2.0 * (x * x + y * y));
  }

  lemma CrossedRows(r: Vec, s: Vec, x: real, y: real, z: real, w: real)
    requires x * x + y * y + z * z + w * w == 1.0
    requires r == Vec(1.0 - 2.0 * (y * y + z * z), 2.0 * (x * y - w * z), 2.0 * (x * z + w * y))
    requires s == Vec(2.0 * (x * y + w * z), 1.0 - 2.0 * (x * x + z * z), 2.0 * (y * z - w * x))
    ensures Cross(r, s) == Vec(2.0 * (x * z - w * y), 2.0 * (y * z + w * x), 1.0 - 2.0 * (x * x + y * y))
  {
    RowCross(x, y, z, w);
  }

  lemma UnitRowOf0(q: Quat)
    requires q.x * q.x + q.y * q.y + q.z * q.z + q.w * q.w == 1.0
    ensures Unit(MatrixOf(q).r0)
  {
    RowOf0(q);
    UnitRow0(MatrixOf(q).r0, q.x, q.y, q.z, q.w);
  }

  lemma UnitRowOf1(q: Quat)
    requires q.x * q.x + q.y * q.y + q.z * q.z + q.w * q.w == 1.0
    ensures Unit(MatrixOf(q).r1)
  {
    RowOf1(q);
    UnitRow1(MatrixOf(q).r1, q.x, q.y, q.z, q.w);
  }

  lemma UnitRowOf2(q: Quat)
    requires q.x * q.x + q.y * q.y + q.z * q.z + q.w * q.w == 1.0
    ensures Unit(MatrixOf(q).r2)
  {
    RowOf2(q);
    UnitRow2(MatrixOf(q).r2, q.x, q.y, q.z, q.w);
  }

  lemma OrthogonalRowsOf01(q: Quat)
    requires q.x * q.x + q.y * q.y + q.z * q.z + q.w * q.w == 1.0
    ensures Dot(MatrixOf(q).r0, MatrixOf(q).r1) == 0.0
  {
    RowOf0(q);
    RowOf1(q);
    OrthogonalRows01(MatrixOf(q).r0, MatrixOf(q).r1, q.x, q.y, q.z, q.w);
  }

  lemma OrthogonalRowsOf12(q: Quat)
    requires q.x * q.x + q.y * q.y + q.z * q.z + q.w * q.w == 1.0
    ensures Dot(MatrixOf(q).r1, MatrixOf(q).r2) == 0.0
  {
    RowOf1(q);
    RowOf2(q);
    OrthogonalRows12(MatrixOf(q).r1, MatrixOf(q).r2, q.x, q.y, q.z, q.w);
  }

  lemma OrthogonalRowsOf02(q: Quat)
    requires q.x * q.x + q.y * q.y + q.z * q.z + q.w * q.w == 1.0
    ensures Dot(MatrixOf(q).r0, MatrixOf(q).r2) == 0.0
  {
    RowOf0(q);
    RowOf2(q);
    OrthogonalRows02(MatrixOf(q).r0, MatrixOf(q).r2, q.x, q.y, q.z, q.w);
  }

  lemma CrossedRowsOf(q: Quat)
    requires q.x * q.x + q.y * q.y + q.z * q.z + q.w * q.w == 1.0
    ensures Cross(MatrixOf(q).r0, MatrixOf(q).r1) == MatrixOf(q).r2
  {
    RowOf0(q);
    RowOf1(q);
    RowOf2(q);
    CrossedRows(MatrixOf(q).r0, MatrixOf(q).r1, q.x, q.y, q.z, q.w);
  }

  /** The matrix of a unit quaternion is a rotation. */
  lemma MatrixOfUnitIsRotation(q: Quat)
    requires Norm2(q) == 1.0
    ensures IsRotation(MatrixOf(q))
  {
    UnitRowOf0(q);
    UnitRowOf1(q);
    UnitRowOf2(q);
    OrthogonalRowsOf01(q);
    OrthogonalRowsOf02(q);
    OrthogonalRowsOf12(q);
    CrossedRowsOf(q);
  }

  function Minus(q: Quat): Quat { Quat(-q.x, -q.y, -q.z, -q.w) }

  /** `_mat_to_quat` recovers every unit quaternion from its matrix, up to the sign that turns nothing. */
  lemma QuaternionRoundTrip(q: Quat, sqrt: real -> real)
    requires Norm2(q) == 1.0 && IsSqrt(sqrt)
    ensures IsRotation(MatrixOf(q))
    ensures MatToQuat(MatrixOf(q), sqrt) == q || MatToQuat(MatrixOf(q), sqrt) == Minus(q)
  {
    MatrixOfUnitIsRotation(q);
    var m := MatrixOf(q);
    var p := MatToQuat(m, sqrt);
    UnitRepresents(q);
    NormIsOne(m, sqrt);
    RawRepresents(m, sqrt);
    assert p == Raw(m, sqrt);
    RepresentSame(p, q, m);
    SameUpToSign(p, q);
  }

  /** All ten products agree. */
  ghost predicate SameProducts(p: Quat, q: Quat) {
    && p.x * p.x == q.x * q.x && p.y * p.y == q.y * q.y && p.z * p.z == q.z * q.z && p.w * p.w == q.w * q.w
    && p.x * p.y == q.x * q.y && p.x * p.z == q.x * q.z && p.y * p.z == q.y * q.z
    && p.w * p.x == q.w * q.x && p.w * p.y == q.w * q.y && p.w * p.z == q.w * q.z
  }

  lemma RepresentSame(p: Quat, q: Quat, m: Mat)
    requires Represents(p, m) && Represents(q, m)
    ensures SameProducts(p, q)
  {
    hide WW, XX, YY, ZZ, XY, XZ, YZ, WX, WY, WZ;
  }

  lemma SameUpToSign(p: Quat, q: Quat)
    requires SameProducts(p, q) && Norm2(q) == 1.0
    ensures p == q || p == Minus(q)
  {
    if q.w != 0.0 {
      SignW(p, q);
    } else if q.x != 0.0 {
      SignX(p, q);
    } else if q.y != 0.0 {
      SignY(p, q);
    } else {
      SignZ(p, q);
    }
  }

  lemma SignW(p: Quat, q: Quat)
    requires q.w != 0.0 && p.w * p.w == q.w * q.w
    requires p.w * p.x == q.w * q.x && p.w * p.y == q.w * q.y && p.w * p.z == q.w * q.z
    ensures p == q || p == Minus(q)
  {
    Sign(p.w, p.x, p.y, p.z, q.w, q.x, q.y, q.z);
  }

  lemma SignX(p: Quat, q: Quat)
    requires q.x != 0.0 && p.x * p.x == q.x * q.x
    requires p.w * p.x == q.w * q.x && p.x * p.y == q.x * q.y && p.x * p.z == q.x * q.z
    ensures p == q || p == Minus(q)
  {
    Sign(p.x, p.w, p.y, p.z, q.x, q.w, q.y, q.z);
  }

  lemma SignY(p: Quat, q: Quat)
    requires q.y != 0.0 && p.y * p.y == q.y * q.y
    requires p.w * p.y == q.w * q.y && p.x * p.y == q.x * q.y && p.y * p.z == q.y * q.z
    ensures p == q || p == Minus(q)
  {
    Sign(p.y, p.w, p.x, p.z, q.y, q.w, q.x, q.z);
  }

  lemma SignZ(p: Quat, q: Quat)
    requires q.z != 0.0 && p.z * p.z == q.z * q.z
    requires p.w * p.z == q.w * q.z && p.x * p.z == q.x * q.z && p.y * p.z == q.y * q.z
    ensures p == q || p == Minus(q)
  {
    Sign(p.z, p.w, p.x, p.y, q.z, q.w, q.x, q.y);
  }

  lemma Sign(a: real, b: real, c: real, d: real, e: real, f: real, g: real, h: real)
    requires e != 0.0 && a * a == e * e && a * b == e * f && a * c == e * g && a * d == e * h
    ensures (a == e && b == f && c == g && d == h) || (a == -e && b == -f && c == -g && d == -h)
  {
    assert (a - e) * (a + e) == 0.0;
    ZeroProduct(a - e, a + e);
    if a == e {
      Cancel(e, b, f);
      Cancel(e, c, g);
      Cancel(e, d, h);
    } else {
      Cancel(e, -b, f);
      Cancel(e, -c, g);
      Cancel(e, -d, h);
    }
  }
}
